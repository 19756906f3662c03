/** luhnCheck of packages/validation/src/validation.ts: the Luhn checksum of ISO/IEC 7812-1, Annex B. */
module Luhn {
  import opened Common

  type Digits = seq<int>

  /** parseInt of a one-character string; None is NaN. */
  function ParseDigit(c: char): Option<int> {
    if '0' <= c <= '9' then Some(c as int - '0' as int) else None
  }

  predicate AllDigits(card: string) {
    forall i :: 0 <= i < |card| ==> '0' <= card[i] <= '9'
  }

  function ToDigits(card: string): (r: Digits)
    requires AllDigits(card)
    ensures |r| == |card| && forall i :: 0 <= i < |r| ==> r[i] == card[i] as int - '0' as int
  {
    seq(|card|, i requires 0 <= i < |card| => card[i] as int - '0' as int)
  }

  ghost predicate IsDigits(s: Digits) {
    forall i :: 0 <= i < |s| ==> 0 <= s[i] <= 9
  }

  /** What the standard adds for a doubled digit: the digits of the double. */
  function Weight(d: int, double: bool): int {
    if double then (2 * d) / 10 + (2 * d) % 10 else d
  }

  /** Whether position i, counted from the left, is doubled: every second position from the right is. */
  predicate Doubled(s: Digits, i: nat)
    requires i < |s|
  {
    (|s| - 1 - i) % 2 == 1
  }

  /** The Luhn sum of the first n digits of s. */
  function LuhnSum(s: Digits, n: nat): int
    requires n <= |s|
  {
    if n == 0 then 0 else LuhnSum(s, n - 1) + Weight(s[n - 1], Doubled(s, n - 1))
  }

  ghost predicate Valid(s: Digits) {
    IsDigits(s) && LuhnSum(s, |s|) % 10 == 0
  }

  /** The sum from position n to the end, which is the order in which the code adds. */
  function SumFrom(s: Digits, n: nat): int
    requires n <= |s|
    decreases |s| - n
  {
    if n == |s| then 0 else SumFrom(s, n + 1) + Weight(s[n], Doubled(s, n))
  }

  lemma {:induction false} SumFromLeft(s: Digits, n: nat)
    requires n <= |s|
    ensures LuhnSum(s, |s|) == LuhnSum(s, n) + SumFrom(s, n)
    decreases |s| - n
  {
    if n == |s| {
    } else {
      SumFromLeft(s, n + 1);
    }
  }

  /** The check accepts exactly the strings of digits whose Luhn sum is a multiple of 10. */
  method LuhnCheck(card: string) returns (ok: bool)
    ensures ok <==> AllDigits(card) && Valid(ToDigits(card))
  {
    var sum := 0;
    var alternate := false;
    var i := |card| - 1;
    while i >= 0
      invariant -1 <= i < |card|
      invariant forall j :: i < j < |card| ==> '0' <= card[j] <= '9'
      invariant alternate == ((|card| - 1 - i) % 2 == 1)
      invariant AllDigits(card) ==> sum == SumFrom(ToDigits(card), i + 1)
    {
      var parsed := ParseDigit(card[i]);
      if parsed.None? {
        return false;
      }
      var n := parsed.value;
      if alternate {
        n := n * 2;
        if n > 9 {
          n := n - 9;
        }
      }
      sum := sum + n;
      alternate := !alternate;
      i := i - 1;
    }
    SumFromLeft(ToDigits(card), 0);
    return sum % 10 == 0;
  }

  // ---------------------------------------------------------------- errors the check detects

  lemma WeightIs(d: int)
    requires 0 <= d <= 9
    ensures Weight(d, true) == if d <= 4 then 2 * d else 2 * d - 9
  {
  }

  /** Doubling or not, different digits weigh differently modulo 10. */
  lemma WeightDistinct(d: int, e: int, double: bool)
    requires 0 <= d <= 9 && 0 <= e <= 9 && d != e
    ensures (Weight(d, double) - Weight(e, double)) % 10 != 0
  {
    WeightIs(d);
    WeightIs(e);
  }

  /** Replacing one digit changes the sum by the difference of the two weights. */
  lemma {:induction false} SumReplaced(s: Digits, i: nat, d: int, n: nat)
    requires i < |s| && n <= |s|
    ensures LuhnSum(s[i := d], n) == LuhnSum(s, n) + if i < n
      then Weight(d, Doubled(s, i)) - Weight(s[i], Doubled(s, i)) else 0
  {
    if n == 0 {
    } else {
      SumReplaced(s, i, d, n - 1);
    }
  }

  lemma Shift(a: int, c: int, total: int)
    requires a % 10 == 0 && total == a + c
    ensures total % 10 == 0 <==> c % 10 == 0
  {
  }

  /** Every substitution of a single digit of a valid number is rejected. */
  lemma SubstitutionRejected(s: Digits, i: nat, d: int)
    requires Valid(s) && i < |s| && 0 <= d <= 9 && d != s[i]
    ensures !Valid(s[i := d])
  {
    SumReplaced(s, i, d, |s|);
    var double := Doubled(s, i);
    WeightDistinct(d, s[i], double);
    Shift(LuhnSum(s, |s|), Weight(d, double) - Weight(s[i], double), LuhnSum(s[i := d], |s|));
  }

  function SwapNext(s: Digits, i: nat): Digits
    requires i + 1 < |s|
  {
    s[i := s[i + 1]][i + 1 := s[i]]
  }

  /** A swap of two adjacent digits of a valid number passes exactly if they are equal, or are 0 and 9. */
  lemma SwapPassesIff(s: Digits, i: nat)
    requires Valid(s) && i + 1 < |s|
    ensures Valid(SwapNext(s, i)) <==> s[i] == s[i + 1] || {s[i], s[i + 1]} == {0, 9}
  {
    var a, b := s[i], s[i + 1];
    SumReplaced(s, i, b, |s|);
    SumReplaced(s[i := b], i + 1, a, |s|);
    var double := Doubled(s, i);
    assert Doubled(s, i + 1) == !double;
    SwapChange(a, b, double);
    Shift(LuhnSum(s, |s|), Weight(b, double) - Weight(a, double) + Weight(a, !double) - Weight(b, !double),
          LuhnSum(SwapNext(s, i), |s|));
    assert IsDigits(SwapNext(s, i));
  }

  lemma SwapChange(a: int, b: int, double: bool)
    requires 0 <= a <= 9 && 0 <= b <= 9
    ensures (Weight(b, double) - Weight(a, double) + Weight(a, !double) - Weight(b, !double)) % 10 == 0
        <==> a == b || {a, b} == {0, 9}
  {
    WeightIs(a);
    WeightIs(b);
    assert {a, b} == {0, 9} <==> (a == 0 && b == 9) || (a == 9 && b == 0) by {
      assert a in {a, b} && b in {a, b} && 0 in {0, 9} && 9 in {0, 9};
    }
  }

  lemma CheckDigitAdds(payload: Digits, d: int)
    ensures LuhnSum(payload + [d], |payload| + 1) == LuhnSum(payload + [0], |payload|) + d
  {
    var n := |payload|;
    SumReplaced(payload + [0], n, d, n);
    assert (payload + [0])[n := d] == payload + [d];
  }

  lemma OneResidue(base: int, e: int)
    requires 0 <= e <= 9
    ensures (base + e) % 10 == 0 <==> e == (10 - base % 10) % 10
  {
    assert base == 10 * (base / 10) + base % 10;
    assert (base + e) % 10 == (base % 10 + e) % 10;
  }

  /** For every payload there is exactly one check digit. */
  lemma {:induction false} UniqueCheckDigit(payload: Digits, e: int)
    requires IsDigits(payload) && 0 <= e <= 9
    ensures Valid(payload + [e]) <==> e == (10 - LuhnSum(payload + [0], |payload|) % 10) % 10
  {
    CheckDigitAdds(payload, e);
    OneResidue(LuhnSum(payload + [0], |payload|), e);
    assert IsDigits(payload + [e]);
  }
}
