/** What additions and removals do to the bits and the counters of the filters of packages/bloom/src/index.ts, once the
    packed arrays are unpacked.

    Where the probes of an item fall is left open here. */
module BloomCounts {
  import opened Integers

  datatype Layout = Layout(bits: nat, hashFunctions: nat, probe: (string, nat) -> nat)

  predicate FallsInside(s: Layout, item: string, k: nat) {
    s.probe(item, k) < s.bits
  }

  /** How many bits a filter has, how many probes an item gets, and where each falls. */
  type Shape = s: Layout | s.bits > 0 && forall item: string, k: nat :: FallsInside(s, item, k)
    witness Layout(1, 0, (_, _) => 0)

  const MAX_COUNTER: nat := 15

  // ---------------------------------------------------------------- the operations on unpacked counters

  function Probe(shape: Shape, item: string, k: nat): (i: nat)
    ensures i < shape.bits && i == shape.probe(item, k)
  {
    assert FallsInside(shape, item, k);
    shape.probe(item, k)
  }

  function Increment(counts: seq<nat>, i: nat): seq<nat>
    requires i < |counts|
  {
    if counts[i] < MAX_COUNTER then counts[i := counts[i] + 1] else counts
  }

  function Decrement(counts: seq<nat>, i: nat): seq<nat>
    requires i < |counts|
  {
    if counts[i] > 0 then counts[i := counts[i] - 1] else counts
  }

  /** After the first k probes of an add. */
  function AddProbes(shape: Shape, counts: seq<nat>, item: string, k: nat): (r: seq<nat>)
    requires shape.bits == |counts|
    ensures |r| == |counts|
  {
    if k == 0 then counts else Increment(AddProbes(shape, counts, item, k - 1), Probe(shape, item, k - 1))
  }

  function RemoveProbes(shape: Shape, counts: seq<nat>, item: string, k: nat): (r: seq<nat>)
    requires shape.bits == |counts|
    ensures |r| == |counts|
  {
    if k == 0 then counts else Decrement(RemoveProbes(shape, counts, item, k - 1), Probe(shape, item, k - 1))
  }

  predicate MightContain(shape: Shape, counts: seq<nat>, item: string)
    requires shape.bits == |counts|
  {
    forall k :: 0 <= k < shape.hashFunctions ==> counts[Probe(shape, item, k)] != 0
  }

  datatype Op = Add(item: string) | Remove(item: string)

  function Next(shape: Shape, counts: seq<nat>, op: Op): (r: seq<nat>)
    requires shape.bits == |counts|
    ensures |r| == |counts|
  {
    match op
    case Add(item) => AddProbes(shape, counts, item, shape.hashFunctions)
    case Remove(item) => if MightContain(shape, counts, item)
      then RemoveProbes(shape, counts, item, shape.hashFunctions) else counts
  }

  /** After the first k probes of an add to a plain filter. */
  function SetProbes(shape: Shape, bits: seq<bool>, item: string, k: nat): (r: seq<bool>)
    requires shape.bits == |bits|
    ensures |r| == |bits|
  {
    if k == 0 then bits else SetProbes(shape, bits, item, k - 1)[Probe(shape, item, k - 1) := true]
  }

  predicate AllProbesSet(shape: Shape, bits: seq<bool>, item: string)
    requires shape.bits == |bits|
  {
    forall k :: 0 <= k < shape.hashFunctions ==> bits[Probe(shape, item, k)]
  }

  // ---------------------------------------------------------------- loads

  /** How many of the first k probes of item fall on position i. */
  function Hits(shape: Shape, item: string, k: nat, i: nat): nat
  {
    if k == 0 then 0 else Hits(shape, item, k - 1, i) + if Probe(shape, item, k - 1) == i then 1 else 0
  }

  /** The true load of position i when the filter holds these items, repetitions included. */
  function Load(shape: Shape, items: seq<string>, i: nat): nat
  {
    if items == [] then 0
    else Load(shape, items[..|items| - 1], i) + Hits(shape, items[|items| - 1], shape.hashFunctions, i)
  }

  /** Which of the first k probes of item fall on position i. */
  ghost function HitSet(shape: Shape, item: string, k: nat, i: nat): set<nat> {
    set j: nat | j < k && shape.probe(item, j) == i
  }

  lemma {:induction false} HitsAreHitSet(shape: Shape, item: string, k: nat, i: nat)
    ensures Hits(shape, item, k, i) == |HitSet(shape, item, k, i)|
  {
    if k == 0 {
    } else {
      HitsAreHitSet(shape, item, k - 1, i);
      var before, last := HitSet(shape, item, k - 1, i), Probe(shape, item, k - 1);
      assert HitSet(shape, item, k, i) == before + if last == i then {k - 1} else {};
      assert k - 1 !in before;
    }
  }

  /** Which probes of which items, named by their positions, fall on position i. */
  ghost function LoadSet(shape: Shape, items: seq<string>, i: nat): set<(nat, nat)> {
    set a: nat, j: nat | a < |items| && j < shape.hashFunctions && shape.probe(items[a], j) == i :: (a, j)
  }

  lemma {:induction false} LoadsAreLoadSet(shape: Shape, items: seq<string>, i: nat)
    ensures Load(shape, items, i) == |LoadSet(shape, items, i)|
  {
    if items == [] {
      assert LoadSet(shape, items, i) == {};
    } else {
      var n := |items| - 1;
      LoadsAreLoadSet(shape, items[..n], i);
      HitsAreHitSet(shape, items[n], shape.hashFunctions, i);
      var before, hits := LoadSet(shape, items[..n], i), HitSet(shape, items[n], shape.hashFunctions, i);
      PairedSize(n, hits);
      assert LoadSet(shape, items, i) == before + Paired(n, hits);
      assert before !! Paired(n, hits);
    }
  }

  ghost function Paired(n: nat, js: set<nat>): set<(nat, nat)> {
    set j | j in js :: (n, j)
  }

  lemma {:induction false} PairedSize(n: nat, js: set<nat>)
    ensures |Paired(n, js)| == |js|
  {
    if js == {} {
      assert Paired(n, js) == {};
    } else {
      var x :| x in js;
      PairedSize(n, js - {x});
      assert Paired(n, js) == Paired(n, js - {x}) + {(n, x)};
      assert (n, x) !in Paired(n, js - {x});
    }
  }

  lemma {:induction false} AddEffect(shape: Shape, counts: seq<nat>, item: string, k: nat, i: nat)
    requires shape.bits == |counts| && i < |counts| && counts[i] <= MAX_COUNTER
    ensures AddProbes(shape, counts, item, k)[i] == Min(MAX_COUNTER, counts[i] + Hits(shape, item, k, i))
  {
    if k == 0 {
    } else {
      AddEffect(shape, counts, item, k - 1, i);
    }
  }

  lemma {:induction false} RemoveEffect(shape: Shape, counts: seq<nat>, item: string, k: nat, i: nat)
    requires shape.bits == |counts| && i < |counts|
    ensures var h := Hits(shape, item, k, i);
      RemoveProbes(shape, counts, item, k)[i] == if counts[i] >= h then counts[i] - h else 0
  {
    if k == 0 {
    } else {
      RemoveEffect(shape, counts, item, k - 1, i);
    }
  }

  lemma {:induction false} HitAtProbe(shape: Shape, item: string, k: nat, j: nat)
    requires j < k
    ensures Hits(shape, item, k, Probe(shape, item, j)) > 0
  {
    if j < k - 1 {
      HitAtProbe(shape, item, k - 1, j);
    }
  }

  function HitsOf(shape: Shape, item: string, i: nat): nat {
    Hits(shape, item, shape.hashFunctions, i)
  }

  /** items without the last occurrence of item. */
  function Without(items: seq<string>, item: string): seq<string> {
    if items == [] then []
    else if items[|items| - 1] == item then items[..|items| - 1]
    else Without(items[..|items| - 1], item) + [items[|items| - 1]]
  }

  lemma {:induction false} LoadWithout(shape: Shape, items: seq<string>, item: string, i: nat)
    requires item in items
    ensures Load(shape, items, i) == Load(shape, Without(items, item), i) + HitsOf(shape, item, i)
  {
    var front, last := items[..|items| - 1], items[|items| - 1];
    if last != item {
      LoadWithout(shape, front, item, i);
      LoadSnoc(shape, Without(front, item), last, i);
    }
  }

  lemma LoadSnoc(shape: Shape, items: seq<string>, item: string, i: nat)
    ensures Load(shape, items + [item], i) == Load(shape, items, i) + HitsOf(shape, item, i)
  {
    assert (items + [item])[..|items|] == items;
  }

  // ---------------------------------------------------------------- runs

  /** The items the filter should hold after the operations, one removal taking out one occurrence. */
  function Held(ops: seq<Op>): seq<string> {
    if ops == [] then [] else
      var before, op := Held(ops[..|ops| - 1]), ops[|ops| - 1];
      match op
      case Add(item) => before + [item]
      case Remove(item) =>
        if item in before then Without(before, item) else before
  }

  function Run(shape: Shape, ops: seq<Op>): (r: seq<nat>)
    ensures |r| == shape.bits
  {
    if ops == [] then seq(shape.bits, _ => 0) else Next(shape, Run(shape, ops[..|ops| - 1]), ops[|ops| - 1])
  }

  /** Only items that are held are removed. */
  ghost predicate RemovesHeld(ops: seq<Op>) {
    ops != [] ==>
      RemovesHeld(ops[..|ops| - 1]) && (ops[|ops| - 1].Remove? ==> ops[|ops| - 1].item in Held(ops[..|ops| - 1]))
  }

  ghost predicate CountsAreLoads(shape: Shape, ops: seq<Op>)
  {
    forall i: nat :: i < shape.bits ==> Run(shape, ops)[i] == Load(shape, Held(ops), i)
  }

  ghost predicate LoadsFit(shape: Shape, ops: seq<Op>)
  {
    forall i: nat :: i < shape.bits ==> Load(shape, Held(ops), i) <= MAX_COUNTER
  }

  lemma {:induction false} CountsBounded(shape: Shape, ops: seq<Op>, i: nat)
    requires i < shape.bits
    ensures Run(shape, ops)[i] <= MAX_COUNTER
  {
    if ops == [] {
    } else {
      var front, op := ops[..|ops| - 1], ops[|ops| - 1];
      CountsBounded(shape, front, i);
      AddEffect(shape, Run(shape, front), op.item, shape.hashFunctions, i);
      RemoveEffect(shape, Run(shape, front), op.item, shape.hashFunctions, i);
    }
  }

  /** Where the counters are the loads, an item that is held is found. */
  lemma HeldIsFound(shape: Shape, ops: seq<Op>, item: string)
    requires CountsAreLoads(shape, ops) && item in Held(ops)
    ensures MightContain(shape, Run(shape, ops), item)
  {
    forall k | 0 <= k < shape.hashFunctions ensures Run(shape, ops)[Probe(shape, item, k)] != 0 {
      LoadWithout(shape, Held(ops), item, Probe(shape, item, k));
      HitAtProbe(shape, item, shape.hashFunctions, k);
    }
  }

  lemma AddExact(shape: Shape, ops: seq<Op>, item: string, i: nat)
    requires i < shape.bits && Run(shape, ops)[i] == Load(shape, Held(ops), i)
    requires Load(shape, Held(ops) + [item], i) <= MAX_COUNTER
    ensures AddProbes(shape, Run(shape, ops), item, shape.hashFunctions)[i] == Load(shape, Held(ops) + [item], i)
  {
    assert (Held(ops) + [item])[..|Held(ops)|] == Held(ops);
    AddEffect(shape, Run(shape, ops), item, shape.hashFunctions, i);
  }

  lemma RemoveExact(shape: Shape, ops: seq<Op>, item: string, i: nat)
    requires i < shape.bits && item in Held(ops) && Run(shape, ops)[i] == Load(shape, Held(ops), i)
    ensures RemoveProbes(shape, Run(shape, ops), item, shape.hashFunctions)[i]
         == Load(shape, Without(Held(ops), item), i)
  {
    RemoveEffect(shape, Run(shape, ops), item, shape.hashFunctions, i);
    LoadWithout(shape, Held(ops), item, i);
  }

  lemma StepExact(shape: Shape, ops: seq<Op>)
    requires ops != [] && RemovesHeld(ops)
    requires CountsAreLoads(shape, ops[..|ops| - 1]) && LoadsFit(shape, ops)
    ensures CountsAreLoads(shape, ops)
  {
    var front, op := ops[..|ops| - 1], ops[|ops| - 1];
    match op
    case Add(item) =>
      assert Held(ops) == Held(front) + [item];
      forall i: nat | i < shape.bits ensures Run(shape, ops)[i] == Load(shape, Held(ops), i) {
        AddExact(shape, front, item, i);
      }
    case Remove(item) =>
      HeldIsFound(shape, front, item);
      forall i: nat | i < shape.bits ensures Run(shape, ops)[i] == Load(shape, Held(ops), i) {
        RemoveExact(shape, front, item, i);
      }
  }

  /** In a run that removes only held items, every counter equals the true load at all times if and only if no true
      load ever passes 15. */
  lemma ExactIffLoadsFit(shape: Shape, ops: seq<Op>)
    requires RemovesHeld(ops)
    ensures (forall n :: 0 <= n <= |ops| ==> CountsAreLoads(shape, ops[..n])) <==>
      (forall n :: 0 <= n <= |ops| ==> LoadsFit(shape, ops[..n]))
  {
    if forall n :: 0 <= n <= |ops| ==> CountsAreLoads(shape, ops[..n]) {
      forall n | 0 <= n <= |ops| ensures LoadsFit(shape, ops[..n]) {
        forall i: nat | i < shape.bits ensures Load(shape, Held(ops[..n]), i) <= MAX_COUNTER {
          CountsBounded(shape, ops[..n], i);
          assert CountsAreLoads(shape, ops[..n]);
        }
      }
    }
    if forall n :: 0 <= n <= |ops| ==> LoadsFit(shape, ops[..n]) {
      forall n | 0 <= n <= |ops| ensures CountsAreLoads(shape, ops[..n]) {
        ExactWhileLoadsFit(shape, ops, n);
      }
    }
  }

  lemma {:induction false} RemovesHeldPrefix(ops: seq<Op>, n: nat)
    requires RemovesHeld(ops) && n <= |ops|
    ensures RemovesHeld(ops[..n])
  {
    if n < |ops| {
      RemovesHeldPrefix(ops[..|ops| - 1], n);
      assert ops[..|ops| - 1][..n] == ops[..n];
    } else {
      assert ops[..n] == ops;
    }
  }

  lemma {:induction false} ExactWhileLoadsFit(shape: Shape, ops: seq<Op>, n: nat)
    requires RemovesHeld(ops) && n <= |ops|
    requires forall m :: 0 <= m <= n ==> LoadsFit(shape, ops[..m])
    ensures CountsAreLoads(shape, ops[..n])
  {
    if n == 0 {
    } else {
      ExactWhileLoadsFit(shape, ops, n - 1);
      RemovesHeldPrefix(ops, n);
      assert ops[..n][..n - 1] == ops[..n - 1];
      StepExact(shape, ops[..n]);
    }
  }

  /** The load of position i passes 15 at some time of the run. */
  ghost predicate Overflows(shape: Shape, ops: seq<Op>, i: nat) {
    exists m :: 0 <= m <= |ops| && Load(shape, Held(ops[..m]), i) > MAX_COUNTER
  }

  /** Whatever happens elsewhere, a counter covers the true load of its position until that load passes 15: a removal
      that the filter refuses can only leave the counter higher. */
  lemma {:induction false} CountCovers(shape: Shape, ops: seq<Op>, i: nat)
    requires RemovesHeld(ops) && i < shape.bits && !Overflows(shape, ops, i)
    ensures Run(shape, ops)[i] >= Load(shape, Held(ops), i)
  {
    if ops == [] {
      assert Held(ops) == [];
    } else {
      var front, op := ops[..|ops| - 1], ops[|ops| - 1];
      FrontFits(shape, ops, i);
      CountCovers(shape, front, i);
      CountsBounded(shape, front, i);
      AddEffect(shape, Run(shape, front), op.item, shape.hashFunctions, i);
      RemoveEffect(shape, Run(shape, front), op.item, shape.hashFunctions, i);
      match op
      case Add(item) =>
        assert (Held(front) + [item])[..|Held(front)|] == Held(front);
      case Remove(item) =>
        LoadWithout(shape, Held(front), item, i);
    }
  }

  lemma FrontFits(shape: Shape, ops: seq<Op>, i: nat)
    requires ops != [] && !Overflows(shape, ops, i)
    ensures !Overflows(shape, ops[..|ops| - 1], i) && Load(shape, Held(ops), i) <= MAX_COUNTER
  {
    assert ops[..|ops|] == ops;
    var front := ops[..|ops| - 1];
    forall m | 0 <= m <= |front| ensures Load(shape, Held(front[..m]), i) <= MAX_COUNTER {
      assert front[..m] == ops[..m];
    }
  }

  /** A held item is reported missing only if the load of one of its own positions has passed 15. */
  lemma MissingMeansOverflow(shape: Shape, ops: seq<Op>, item: string)
    requires RemovesHeld(ops) && item in Held(ops) && !MightContain(shape, Run(shape, ops), item)
    ensures exists k :: 0 <= k < shape.hashFunctions && Overflows(shape, ops, Probe(shape, item, k))
  {
    var k :| 0 <= k < shape.hashFunctions && Run(shape, ops)[Probe(shape, item, k)] == 0;
    var i := Probe(shape, item, k);
    LoadWithout(shape, Held(ops), item, i);
    HitAtProbe(shape, item, shape.hashFunctions, k);
    if !Overflows(shape, ops, i) {
      CountCovers(shape, ops, i);
    }
  }

  /** While no true load passes 15 and only held items are removed, no held item is ever reported missing. */
  lemma NoFalseNegative(shape: Shape, ops: seq<Op>, item: string)
    requires RemovesHeld(ops) && item in Held(ops)
    requires forall m :: 0 <= m <= |ops| ==> LoadsFit(shape, ops[..m])
    ensures MightContain(shape, Run(shape, ops), item)
  {
    if !MightContain(shape, Run(shape, ops), item) {
      MissingMeansOverflow(shape, ops, item);
    }
  }

  // ---------------------------------------------------------------- exactly when held items are lost

  /** How much of the load of position i its counter has missed by saturating: what the load exceeded 15 by at its
      highest, since it was last 0. */
  function Deficit(shape: Shape, ops: seq<Op>, i: nat): nat {
    if ops == [] || Load(shape, Held(ops), i) == 0 then 0
    else Max(Deficit(shape, ops[..|ops| - 1], i), Load(shape, Held(ops), i) - MAX_COUNTER)
  }

  /** No position that some held item uses has lost its whole load. */
  ghost predicate DeficitsCovered(shape: Shape, ops: seq<Op>) {
    forall i: nat :: i < shape.bits && Load(shape, Held(ops), i) > 0 ==>
      Load(shape, Held(ops), i) > Deficit(shape, ops, i)
  }

  ghost predicate CountsMissDeficits(shape: Shape, ops: seq<Op>) {
    forall i: nat :: i < shape.bits ==> Run(shape, ops)[i] == Load(shape, Held(ops), i) - Deficit(shape, ops, i)
  }

  ghost predicate AllFound(shape: Shape, ops: seq<Op>) {
    forall item :: item in Held(ops) ==> MightContain(shape, Run(shape, ops), item)
  }

  lemma {:induction false} ProbeOf(shape: Shape, item: string, n: nat, i: nat) returns (k: nat)
    requires Hits(shape, item, n, i) > 0
    ensures k < n && Probe(shape, item, k) == i
  {
    if Probe(shape, item, n - 1) == i {
      k := n - 1;
    } else {
      k := ProbeOf(shape, item, n - 1, i);
    }
  }

  /** A loaded position is probed by some item. */
  lemma {:induction false} Prober(shape: Shape, items: seq<string>, i: nat) returns (item: string, k: nat)
    requires Load(shape, items, i) > 0
    ensures item in items && k < shape.hashFunctions && Probe(shape, item, k) == i
  {
    var last := items[|items| - 1];
    if Hits(shape, last, shape.hashFunctions, i) > 0 {
      item := last;
      k := ProbeOf(shape, item, shape.hashFunctions, i);
    } else {
      item, k := Prober(shape, items[..|items| - 1], i);
    }
  }

  /** A held item loads the positions it probes. */
  lemma Loaded(shape: Shape, items: seq<string>, item: string, k: nat)
    requires item in items && k < shape.hashFunctions
    ensures Load(shape, items, Probe(shape, item, k)) > 0
  {
    LoadWithout(shape, items, item, Probe(shape, item, k));
    HitAtProbe(shape, item, shape.hashFunctions, k);
  }

  lemma CoveredFinds(shape: Shape, ops: seq<Op>)
    requires CountsMissDeficits(shape, ops) && DeficitsCovered(shape, ops)
    ensures AllFound(shape, ops)
  {
    forall item, k | item in Held(ops) && 0 <= k < shape.hashFunctions
      ensures Run(shape, ops)[Probe(shape, item, k)] != 0
    {
      Loaded(shape, Held(ops), item, k);
    }
  }

  /** Each counter is its load less its deficit, but no less than 0. */
  ghost predicate Clipped(shape: Shape, ops: seq<Op>) {
    forall i: nat :: i < shape.bits ==>
      Run(shape, ops)[i] == Max(0, Load(shape, Held(ops), i) - Deficit(shape, ops, i))
  }

  function DeficitAfter(deficit: nat, load: nat): nat {
    if load == 0 then 0 else Max(deficit, load - MAX_COUNTER)
  }

  lemma DeficitNext(shape: Shape, front: seq<Op>, op: Op, i: nat)
    ensures Deficit(shape, front + [op], i)
         == DeficitAfter(Deficit(shape, front, i), Load(shape, Held(front + [op]), i))
  {
    assert (front + [op])[..|front|] == front;
  }

  /** Adding h to a load l with deficit d, of which the counter shows l - d. */
  lemma AddArith(l: nat, d: nat, h: nat)
    requires 0 <= l - d <= MAX_COUNTER
    ensures Min(MAX_COUNTER, l - d + h) == Max(0, l + h - DeficitAfter(d, l + h))
  {
  }

  lemma RemoveArith(l: nat, d: nat, h: nat)
    requires h <= l && 0 <= l - d <= MAX_COUNTER
    ensures Max(0, l - d - h) == Max(0, l - h - DeficitAfter(d, l - h))
  {
  }

  lemma StepDeficit(shape: Shape, front: seq<Op>, op: Op, i: nat)
    requires i < shape.bits && AllFound(shape, front) && CountsMissDeficits(shape, front)
    requires op.Remove? ==> op.item in Held(front)
    ensures Next(shape, Run(shape, front), op)[i]
         == Max(0, Load(shape, Held(front + [op]), i) - Deficit(shape, front + [op], i))
  {
    var l, d, h := Load(shape, Held(front), i), Deficit(shape, front, i), HitsOf(shape, op.item, i);
    var c, l' := Run(shape, front)[i], Load(shape, Held(front + [op]), i);
    CountsBounded(shape, front, i);
    assert c == l - d;
    LoadNext(shape, front, op, i);
    CountNext(shape, Run(shape, front), op, i);
    DeficitNext(shape, front, op, i);
    if op.Add? {
      AddArith(l, d, h);
    } else {
      RemoveArith(l, d, h);
    }
  }

  /** What one more operation does to the load of a position. */
  lemma LoadNext(shape: Shape, front: seq<Op>, op: Op, i: nat)
    requires op.Remove? ==> op.item in Held(front)
    ensures var l, l', h := Load(shape, Held(front), i), Load(shape, Held(front + [op]), i), HitsOf(shape, op.item, i);
      if op.Add? then l' == l + h else l == l' + h
  {
    HeldNext(front, op);
    if op.Add? {
      LoadSnoc(shape, Held(front), op.item, i);
    } else {
      LoadWithout(shape, Held(front), op.item, i);
    }
  }

  /** What it does to the counter, where an item to be removed is found. */
  lemma CountNext(shape: Shape, counts: seq<nat>, op: Op, i: nat)
    requires i < |counts| == shape.bits && counts[i] <= MAX_COUNTER
    requires op.Remove? ==> MightContain(shape, counts, op.item)
    ensures Next(shape, counts, op)[i]
         == if op.Add? then Min(MAX_COUNTER, counts[i] + HitsOf(shape, op.item, i))
            else Max(0, counts[i] - HitsOf(shape, op.item, i))
  {
    AddEffect(shape, counts, op.item, shape.hashFunctions, i);
    RemoveEffect(shape, counts, op.item, shape.hashFunctions, i);
  }

  lemma HeldNext(front: seq<Op>, op: Op)
    requires op.Remove? ==> op.item in Held(front)
    ensures Held(front + [op]) == if op.Add? then Held(front) + [op.item] else Without(Held(front), op.item)
  {
    assert (front + [op])[..|front|] == front;
  }

  /** One more operation, from a state that finds everything. */
  lemma StepClipped(shape: Shape, front: seq<Op>, op: Op)
    requires AllFound(shape, front) && CountsMissDeficits(shape, front)
    requires op.Remove? ==> op.item in Held(front)
    ensures Clipped(shape, front + [op])
  {
    var ops := front + [op];
    assert ops[..|front|] == front;
    assert Run(shape, ops) == Next(shape, Run(shape, front), op);
    forall i: nat | i < shape.bits
      ensures Run(shape, ops)[i] == Max(0, Load(shape, Held(ops), i) - Deficit(shape, ops, i))
    {
      StepDeficit(shape, front, op, i);
    }
  }

  lemma FoundCovers(shape: Shape, ops: seq<Op>)
    requires AllFound(shape, ops) && Clipped(shape, ops)
    ensures DeficitsCovered(shape, ops)
  {
    forall i: nat | i < shape.bits && Load(shape, Held(ops), i) > 0
      ensures Load(shape, Held(ops), i) > Deficit(shape, ops, i)
    {
      var item, k := Prober(shape, Held(ops), i);
      assert Run(shape, ops)[Probe(shape, item, k)] != 0;
    }
  }

  ghost predicate FoundUntil(shape: Shape, ops: seq<Op>, n: nat)
    requires n <= |ops|
  {
    forall m :: 0 <= m <= n ==> AllFound(shape, ops[..m])
  }

  ghost predicate CoveredUntil(shape: Shape, ops: seq<Op>, n: nat)
    requires n <= |ops|
  {
    forall m :: 0 <= m <= n ==> DeficitsCovered(shape, ops[..m])
  }

  lemma ClippedIff(shape: Shape, ops: seq<Op>)
    requires Clipped(shape, ops)
    ensures AllFound(shape, ops) <==> DeficitsCovered(shape, ops)
    ensures AllFound(shape, ops) ==> CountsMissDeficits(shape, ops)
  {
    if AllFound(shape, ops) {
      FoundCovers(shape, ops);
    }
    if DeficitsCovered(shape, ops) {
      CoveredCounts(shape, ops);
      CoveredFinds(shape, ops);
    }
  }

  lemma CoveredCounts(shape: Shape, ops: seq<Op>)
    requires DeficitsCovered(shape, ops) && Clipped(shape, ops)
    ensures CountsMissDeficits(shape, ops)
  {
    forall i: nat | i < shape.bits
      ensures Run(shape, ops)[i] == Load(shape, Held(ops), i) - Deficit(shape, ops, i)
    {
      assert Load(shape, Held(ops), i) == 0 ==> Deficit(shape, ops, i) == 0;
    }
  }

  lemma UntilNext(shape: Shape, ops: seq<Op>, n: nat)
    requires 0 < n <= |ops|
    ensures FoundUntil(shape, ops, n) <==> FoundUntil(shape, ops, n - 1) && AllFound(shape, ops[..n])
    ensures CoveredUntil(shape, ops, n) <==> CoveredUntil(shape, ops, n - 1) && DeficitsCovered(shape, ops[..n])
    ensures FoundUntil(shape, ops, n - 1) ==> AllFound(shape, ops[..n - 1])
  {
  }

  lemma {:induction false} UntilIff(shape: Shape, ops: seq<Op>, n: nat)
    requires RemovesHeld(ops) && n <= |ops|
    ensures FoundUntil(shape, ops, n) <==> CoveredUntil(shape, ops, n)
    ensures FoundUntil(shape, ops, n) ==> CountsMissDeficits(shape, ops[..n])
  {
    if n == 0 {
      NothingHeld(shape);
      assert ops[..0] == [];
    } else {
      var front, op := ops[..n - 1], ops[n - 1];
      UntilIff(shape, ops, n - 1);
      RemovesHeldPrefix(ops, n);
      assert ops[..n] == front + [op] && (front + [op])[..|front|] == front;
      UntilNext(shape, ops, n);
      if FoundUntil(shape, ops, n - 1) {
        StepClipped(shape, front, op);
        ClippedIff(shape, front + [op]);
      }
    }
  }

  lemma NothingHeld(shape: Shape)
    ensures AllFound(shape, []) && DeficitsCovered(shape, []) && CountsMissDeficits(shape, [])
  {
  }

  /** Exactly when a counting filter never loses a held item: in a run that removes only held items, every held item is
      found at all times if and only if at all times every loaded position has more load than it has missed by
      saturating. */
  lemma NeverLosesIff(shape: Shape, ops: seq<Op>)
    requires RemovesHeld(ops)
    ensures (forall n :: 0 <= n <= |ops| ==> AllFound(shape, ops[..n])) <==>
      (forall n :: 0 <= n <= |ops| ==> DeficitsCovered(shape, ops[..n]))
  {
    UntilIff(shape, ops, |ops|);
  }

  // ---------------------------------------------------------------- the two filters agree on additions

  /** A plain filter after these items were added in turn. */
  function BitsAfter(shape: Shape, items: seq<string>): (r: seq<bool>)
    ensures |r| == shape.bits
  {
    if items == [] then seq(shape.bits, _ => false)
    else SetProbes(shape, BitsAfter(shape, items[..|items| - 1]), items[|items| - 1], shape.hashFunctions)
  }

  function Adds(items: seq<string>): (r: seq<Op>)
    ensures |r| == |items| && forall i :: 0 <= i < |r| ==> r[i] == Op.Add(items[i])
  {
    seq(|items|, i requires 0 <= i < |items| => Op.Add(items[i]))
  }

  lemma {:induction false} SetEffect(shape: Shape, bits: seq<bool>, item: string, k: nat, i: nat)
    requires shape.bits == |bits| && i < |bits|
    ensures SetProbes(shape, bits, item, k)[i] <==> bits[i] || Hits(shape, item, k, i) > 0
  {
    if k == 0 {
    } else {
      SetEffect(shape, bits, item, k - 1, i);
    }
  }

  /** A bit of a plain filter is set exactly where some probe of some added item fell. */
  lemma {:induction false} BitsAreLoads(shape: Shape, items: seq<string>, i: nat)
    requires i < shape.bits
    ensures BitsAfter(shape, items)[i] <==> Load(shape, items, i) > 0
  {
    if items == [] {
    } else {
      var front, item := items[..|items| - 1], items[|items| - 1];
      BitsAreLoads(shape, front, i);
      SetEffect(shape, BitsAfter(shape, front), item, shape.hashFunctions, i);
    }
  }

  lemma {:induction false} CountsAfterAdds(shape: Shape, items: seq<string>, i: nat)
    requires i < shape.bits
    ensures Run(shape, Adds(items))[i] == Min(MAX_COUNTER, Load(shape, items, i))
  {
    if items == [] {
    } else {
      var front, item := items[..|items| - 1], items[|items| - 1];
      CountsAfterAdds(shape, front, i);
      assert Adds(items)[..|items| - 1] == Adds(front);
      AddEffect(shape, Run(shape, Adds(front)), item, shape.hashFunctions, i);
    }
  }

  /** A plain filter never misses an added item. */
  lemma AddedIsFound(shape: Shape, items: seq<string>, item: string)
    requires item in items
    ensures AllProbesSet(shape, BitsAfter(shape, items), item)
  {
    forall k | 0 <= k < shape.hashFunctions ensures BitsAfter(shape, items)[Probe(shape, item, k)] {
      BitsAreLoads(shape, items, Probe(shape, item, k));
      LoadWithout(shape, items, item, Probe(shape, item, k));
      HitAtProbe(shape, item, shape.hashFunctions, k);
    }
  }

  /** Given the same additions, in any number, the counting filter answers every query as the plain filter does:
      saturated counters change no answer until something is removed. */
  lemma SameAnswersOnAdds(shape: Shape, items: seq<string>, item: string)
    ensures MightContain(shape, Run(shape, Adds(items)), item) <==> AllProbesSet(shape, BitsAfter(shape, items), item)
  {
    forall k | 0 <= k < shape.hashFunctions
      ensures Run(shape, Adds(items))[Probe(shape, item, k)] != 0 <==> BitsAfter(shape, items)[Probe(shape, item, k)]
    {
      BitsAreLoads(shape, items, Probe(shape, item, k));
      CountsAfterAdds(shape, items, Probe(shape, item, k));
    }
  }

  // ---------------------------------------------------------------- what saturation costs

  /** n additions of item, then r removals of it. */
  function AddsThenRemoves(item: string, n: nat, r: nat): seq<Op> {
    if r > 0 then AddsThenRemoves(item, n, r - 1) + [Op.Remove(item)]
    else if n > 0 then AddsThenRemoves(item, n - 1, 0) + [Op.Add(item)]
    else []
  }

  /** item, n times. */
  ghost predicate AllAre(items: seq<string>, item: string, n: nat) {
    |items| == n && forall j :: 0 <= j < n ==> items[j] == item
  }

  lemma OneMoreHeld(ops: seq<Op>, item: string, n: nat)
    requires RemovesHeld(ops) && AllAre(Held(ops), item, n)
    ensures RemovesHeld(ops + [Op.Add(item)]) && AllAre(Held(ops + [Op.Add(item)]), item, n + 1)
  {
    assert (ops + [Op.Add(item)])[..|ops|] == ops;
  }

  lemma OneFewerHeld(ops: seq<Op>, item: string, n: nat)
    requires RemovesHeld(ops) && n > 0 && AllAre(Held(ops), item, n)
    ensures RemovesHeld(ops + [Op.Remove(item)]) && AllAre(Held(ops + [Op.Remove(item)]), item, n - 1)
  {
    assert Held(ops)[0] == item;
    assert (ops + [Op.Remove(item)])[..|ops|] == ops;
  }

  lemma {:induction false} HeldAfter(item: string, n: nat, r: nat)
    requires r <= n
    ensures RemovesHeld(AddsThenRemoves(item, n, r)) && AllAre(Held(AddsThenRemoves(item, n, r)), item, n - r)
  {
    if r > 0 {
      var front := AddsThenRemoves(item, n, r - 1);
      HeldAfter(item, n, r - 1);
      OneFewerHeld(front, item, n - r + 1);
    } else if n > 0 {
      var front := AddsThenRemoves(item, n - 1, r);
      HeldAfter(item, n - 1, r);
      OneMoreHeld(front, item, n - 1);
    }
  }

  /** What n additions and r removals leave of the counter of a position hit h times: nothing once it reaches 0. */
  function Left(n: nat, r: nat, h: nat): int {
    Min(MAX_COUNTER, n * h) - r * h
  }

  lemma {:induction false} CountAfterAdds(shape: Shape, item: string, n: nat, i: nat)
    requires i < shape.bits
    ensures Run(shape, AddsThenRemoves(item, n, 0))[i] == Left(n, 0, HitsOf(shape, item, i))
  {
    var ops, h := AddsThenRemoves(item, n, 0), HitsOf(shape, item, i);
    if n == 0 {
      assert ops == [] && 0 * h == 0;
    } else {
      var front := AddsThenRemoves(item, n - 1, 0);
      CountAfterAdds(shape, item, n - 1, i);
      assert ops[..|ops| - 1] == front && ops[|ops| - 1] == Op.Add(item);
      AddEffect(shape, Run(shape, front), item, shape.hashFunctions, i);
      assert n * h == (n - 1) * h + h;
    }
  }

  /** Something is left of every counter that the item's probes fall on. */
  ghost predicate AllLeft(shape: Shape, item: string, n: nat, r: nat) {
    forall k :: 0 <= k < shape.hashFunctions ==> Left(n, r, HitsOf(shape, item, Probe(shape, item, k))) > 0
  }

  lemma {:induction false} FoundAfter(shape: Shape, item: string, n: nat, r: nat)
    ensures var counts := Run(shape, AddsThenRemoves(item, n, r));
      && (MightContain(shape, counts, item) <==> AllLeft(shape, item, n, r))
      && (AllLeft(shape, item, n, r) ==> forall i: nat :: i < shape.bits ==>
            counts[i] == Left(n, r, HitsOf(shape, item, i)))
  {
    var ops := AddsThenRemoves(item, n, r);
    if r == 0 {
      forall i: nat | i < shape.bits ensures Run(shape, ops)[i] == Left(n, 0, HitsOf(shape, item, i)) {
        CountAfterAdds(shape, item, n, i);
      }
    } else {
      var front := AddsThenRemoves(item, n, r - 1);
      FoundAfter(shape, item, n, r - 1);
      assert ops[..|ops| - 1] == front && ops[|ops| - 1] == Op.Remove(item);
      FewerLeft(shape, item, n, r);
      if AllLeft(shape, item, n, r - 1) {
        RemovedOnce(shape, item, n, r, Run(shape, front));
      }
    }
  }

  lemma FewerLeft(shape: Shape, item: string, n: nat, r: nat)
    requires r > 0
    ensures AllLeft(shape, item, n, r) ==> AllLeft(shape, item, n, r - 1)
  {
    forall k | 0 <= k < shape.hashFunctions && AllLeft(shape, item, n, r)
      ensures Left(n, r - 1, HitsOf(shape, item, Probe(shape, item, k))) > 0
    {
      var h := HitsOf(shape, item, Probe(shape, item, k));
      assert r * h == (r - 1) * h + h;
      assert Left(n, r, h) > 0;
    }
  }

  lemma RemovedOnce(shape: Shape, item: string, n: nat, r: nat, before: seq<nat>)
    requires r > 0 && |before| == shape.bits && AllLeft(shape, item, n, r - 1)
    requires forall i: nat :: i < shape.bits ==> before[i] == Left(n, r - 1, HitsOf(shape, item, i))
    ensures var counts := RemoveProbes(shape, before, item, shape.hashFunctions);
      && (MightContain(shape, counts, item) <==> AllLeft(shape, item, n, r))
      && (AllLeft(shape, item, n, r) ==> forall i: nat :: i < shape.bits ==>
            counts[i] == Left(n, r, HitsOf(shape, item, i)))
  {
    var counts := RemoveProbes(shape, before, item, shape.hashFunctions);
    forall i: nat | i < shape.bits
      ensures counts[i] == (if Left(n, r, HitsOf(shape, item, i)) > 0 then Left(n, r, HitsOf(shape, item, i)) else 0)
    {
      var h := HitsOf(shape, item, i);
      RemoveEffect(shape, before, item, shape.hashFunctions, i);
      assert r * h == (r - 1) * h + h;
      assert before[i] == Left(n, r - 1, h);
    }
    forall i: nat | i < shape.bits && AllLeft(shape, item, n, r)
      ensures Left(n, r, HitsOf(shape, item, i)) >= 0
    {
      if HitsOf(shape, item, i) == 0 {
        assert r * 0 == 0 && n * 0 == 0;
      } else {
        var k := ProbeOf(shape, item, shape.hashFunctions, i);
        assert Left(n, r, HitsOf(shape, item, Probe(shape, item, k))) > 0;
      }
    }
  }

  /** The most probes of an item, of its first k, that fall on one position. */
  function MostHits(shape: Shape, item: string, k: nat): nat {
    if k == 0 then 0
    else
      var most, h := MostHits(shape, item, k - 1), HitsOf(shape, item, Probe(shape, item, k - 1));
      if h > most then h else most
  }

  lemma {:induction false} MostHitsIs(shape: Shape, item: string, n: nat)
    ensures forall k :: 0 <= k < n ==> HitsOf(shape, item, Probe(shape, item, k)) <= MostHits(shape, item, n)
    ensures n > 0 ==> exists k :: 0 <= k < n && HitsOf(shape, item, Probe(shape, item, k)) == MostHits(shape, item, n)
  {
    if n == 0 {
    } else {
      MostHitsIs(shape, item, n - 1);
      if n == 1 {
        assert HitsOf(shape, item, Probe(shape, item, 0)) == MostHits(shape, item, 1);
      } else if HitsOf(shape, item, Probe(shape, item, n - 1)) <= MostHits(shape, item, n - 1) {
        var k :| 0 <= k < n - 1 && HitsOf(shape, item, Probe(shape, item, k)) == MostHits(shape, item, n - 1);
      } else {
        assert HitsOf(shape, item, Probe(shape, item, n - 1)) == MostHits(shape, item, n);
      }
    }
  }

  lemma LeftIff(n: nat, r: nat, h: nat)
    requires r < n && h > 0
    ensures Left(n, r, h) > 0 <==> r * h < MAX_COUNTER || n * h <= MAX_COUNTER
  {
    assert n * h == r * h + (n - r) * h && (n - r) * h > 0;
  }

  /** Removing stops in time for a position hit h times. */
  ghost predicate InTime(n: nat, r: nat, h: nat) {
    r * h < MAX_COUNTER || n * h <= MAX_COUNTER
  }

  lemma MoreHits(n: nat, r: nat, g: nat, h: nat)
    requires g <= h && InTime(n, r, h)
    ensures InTime(n, r, g)
  {
    assert n * g <= n * h && r * g <= r * h;
  }

  lemma AllLeftIff(shape: Shape, item: string, n: nat, r: nat)
    requires r < n
    ensures AllLeft(shape, item, n, r) <==> InTime(n, r, MostHits(shape, item, shape.hashFunctions))
  {
    var H := MostHits(shape, item, shape.hashFunctions);
    MostHitsIs(shape, item, shape.hashFunctions);
    forall k | 0 <= k < shape.hashFunctions
      ensures Left(n, r, HitsOf(shape, item, Probe(shape, item, k))) > 0
        <==> InTime(n, r, HitsOf(shape, item, Probe(shape, item, k)))
    {
      HitAtProbe(shape, item, shape.hashFunctions, k);
      LeftIff(n, r, HitsOf(shape, item, Probe(shape, item, k)));
    }
    forall k | 0 <= k < shape.hashFunctions && InTime(n, r, H)
      ensures InTime(n, r, HitsOf(shape, item, Probe(shape, item, k)))
    {
      MoreHits(n, r, HitsOf(shape, item, Probe(shape, item, k)), H);
    }
    if shape.hashFunctions == 0 {
      assert r * H == 0;
    }
  }

  /** Exactly when an item that is still held is found again, for every shape: added n times and removed r < n times, it
      is found if and only if r*H stays below 15 or n*H stays within 15, where H is the most probes of it that fall on
      one position. */
  lemma FoundAgainIff(shape: Shape, item: string, n: nat, r: nat)
    requires r < n
    ensures var ops, H := AddsThenRemoves(item, n, r), MostHits(shape, item, shape.hashFunctions);
      && RemovesHeld(ops) && item in Held(ops)
      && (MightContain(shape, Run(shape, ops), item) <==> r * H < MAX_COUNTER || n * H <= MAX_COUNTER)
  {
    HeldAfter(item, n, r);
    assert Held(AddsThenRemoves(item, n, r))[0] == item;
    FoundAfter(shape, item, n, r);
    AllLeftIff(shape, item, n, r);
  }

  /** The bound of 15 is needed, whatever the shape: past it a run that removes only held items loses one that it still
      holds. */
  lemma SaturationLosesItems(shape: Shape, item: string)
    requires shape.hashFunctions > 0
    ensures var ops := AddsThenRemoves(item, 16, 15);
      RemovesHeld(ops) && item in Held(ops) && !MightContain(shape, Run(shape, ops), item)
  {
    FoundAgainIff(shape, item, 16, 15);
    MostHitsIs(shape, item, shape.hashFunctions);
    HitAtProbe(shape, item, shape.hashFunctions, 0);
    assert HitsOf(shape, item, Probe(shape, item, 0)) > 0;
  }
}
