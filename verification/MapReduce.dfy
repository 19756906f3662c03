/** mapReduce of packages/mr/src/index.ts.

    The workers share one index. A worker runs without interruption from one await to the next: it stores its result,
    claims the next index and calls map on it; if its call rejects it stops. Which of the pending calls ends next is
    left open. f(x) is None when map(x) rejects. */
module MapReduce {
  import opened Common
  import opened Integers

  /** Rejected tells which item's call rejected first. */
  datatype Outcome<+R> = Value(r: R) | NoItems | ReduceOfEmpty | Rejected(item: nat)

  ghost predicate AllResolve<T, R>(f: T -> Option<R>, items: seq<T>) {
    forall i :: 0 <= i < |items| ==> f(items[i]).Some?
  }

  function MapAll<T, R>(f: T -> Option<R>, items: seq<T>): (r: seq<R>)
    requires AllResolve(f, items)
    ensures |r| == |items| && forall i :: 0 <= i < |r| ==> Some(r[i]) == f(items[i])
  {
    seq(|items|, i requires 0 <= i < |items| && AllResolve(f, items) => f(items[i]).value)
  }

  /** results.reduce(reduce) on a nonempty array. */
  function Reduce<R>(reduce: (R, R) -> R, results: seq<R>): R
    requires results != []
  {
    if |results| == 1 then results[0]
    else reduce(Reduce(reduce, results[..|results| - 1]), results[|results| - 1])
  }

  /** acc lists the accumulators of folding results from the left, the first being its first element. */
  ghost predicate IsFold<R>(reduce: (R, R) -> R, results: seq<R>, acc: seq<R>) {
    && |acc| == |results| > 0 && acc[0] == results[0]
    && forall i :: 0 <= i < |results| - 1 ==> acc[i + 1] == reduce(acc[i], results[i + 1])
  }

  /** Reducing gives the last accumulator. */
  lemma {:induction false} ReduceFolds<R>(reduce: (R, R) -> R, results: seq<R>) returns (acc: seq<R>)
    requires results != []
    ensures IsFold(reduce, results, acc) && Reduce(reduce, results) == acc[|acc| - 1]
  {
    if |results| == 1 {
      acc := results;
    } else {
      var front := results[..|results| - 1];
      var before := ReduceFolds(reduce, front);
      acc := before + [reduce(before[|before| - 1], results[|results| - 1])];
    }
  }

  /** r is the last accumulator of folding what the items map to, in their order. */
  ghost predicate FoldsTo<T, R(!new)>(f: T -> Option<R>, items: seq<T>, reduce: (R, R) -> R, r: R) {
    exists results, acc ::
      && |results| == |items| && (forall i :: 0 <= i < |items| ==> f(items[i]) == Some(results[i]))
      && IsFold(reduce, results, acc) && r == acc[|items| - 1]
  }

  lemma ReducedIsFolded<T, R(!new)>(f: T -> Option<R>, items: seq<T>, reduce: (R, R) -> R)
    requires items != [] && AllResolve(f, items)
    ensures FoldsTo(f, items, reduce, Reduce(reduce, MapAll(f, items)))
  {
    var results := MapAll(f, items);
    var acc := ReduceFolds(reduce, results);
    assert IsFold(reduce, results, acc);
  }

  function Workers(concurrency: Option<int>, n: nat): nat {
    var wanted := if concurrency.Some? then concurrency.value else n;
    if wanted < 0 then 0 else if wanted < n then wanted else n
  }

  /** calls lists every index below n once. */
  ghost predicate EachOnce(calls: seq<nat>, n: nat) {
    NoDuplicates(calls) && (forall i: nat :: i in calls <==> i < n)
  }

  /** The shared variables: the next index, what each busy worker is mapping, the stored results, the items whose calls
      rejected, in that order, and the indices map was called on so far, in the order of the calls. */
  datatype State<+R> = State(index: nat, busy: map<nat, nat>, results: map<nat, R>, failed: seq<nat>, calls: seq<nat>)

  /** A worker claims the next index and calls map on it. */
  function Claim<R>(s: State<R>, w: nat): State<R> {
    s.(index := s.index + 1, busy := s.busy[w := s.index], calls := s.calls + [s.index])
  }

  /** The call of worker w ends: if it resolved, w stores the result and claims another index; else, or if there is
      none, it stops. */
  function Finish<T, R>(f: T -> Option<R>, items: seq<T>, s: State<R>, w: nat): State<R>
    requires w in s.busy && s.busy[w] < |items|
  {
    var i := s.busy[w];
    match f(items[i])
    case None => s.(failed := s.failed + [i], busy := s.busy - {w})
    case Some(value) =>
      var stored := s.(results := s.results[i := value]);
      if s.index < |items| then Claim(stored, w) else stored.(busy := s.busy - {w})
  }

  /** The indices claimed so far are those being mapped, one per busy worker, those whose result is stored, and those
      that failed; and unless one failed, work goes on while indices are left. */
  ghost predicate Working<T, R(!new)>(f: T -> Option<R>, items: seq<T>, s: State<R>) {
    && s.index <= |items|
    && (forall i :: i in s.results ==> i < s.index && Some(s.results[i]) == f(items[i]))
    && (forall i :: i in s.failed ==> i < s.index && f(items[i]) == None)
    && (forall w :: w in s.busy ==> s.busy[w] < s.index && s.busy[w] !in s.results && s.busy[w] !in s.failed)
    && (forall v, w :: v in s.busy && w in s.busy && v != w ==> s.busy[v] != s.busy[w])
    && Covered(s)
    && (s.index < |items| && s.failed == [] ==> s.busy != map[])
  }

  lemma CallNext(calls: seq<nat>, n: nat)
    requires EachOnce(calls, n)
    ensures EachOnce(calls + [n], n + 1)
  {
    assert n !in calls;
    assert forall i :: 0 <= i < |calls| ==> calls[i] in calls;
  }

  /** Every claimed index is stored, failed, or being mapped. */
  ghost predicate Covered<R(!new)>(s: State<R>) {
    forall i: nat :: i < s.index && i !in s.results && i !in s.failed ==> exists w :: w in s.busy && s.busy[w] == i
  }

  lemma FinishCovers<T, R(!new)>(f: T -> Option<R>, items: seq<T>, s: State<R>, w: nat)
    requires Covered(s) && w in s.busy && s.busy[w] < |items|
    ensures Covered(Finish(f, items, s, w))
  {
    var s', i0 := Finish(f, items, s, w), s.busy[w];
    if f(items[i0]).Some? && s.index < |items| {
      assert w in s'.busy && s'.busy[w] == s.index;
    }
    forall i: nat | i < s.index && i !in s.results && i !in s.failed && i != i0
      ensures exists v :: v in s'.busy && s'.busy[v] == i
    {
      var v :| v in s.busy && s.busy[v] == i;
      assert v in s'.busy && s'.busy[v] == i;
    }
  }

  lemma RejectKeeps<T, R(!new)>(f: T -> Option<R>, items: seq<T>, s: State<R>, w: nat)
    requires Working(f, items, s) && w in s.busy && f(items[s.busy[w]]) == None
    ensures Working(f, items, Finish(f, items, s, w))
  {
    FinishCovers(f, items, s, w);
    var s', i := Finish(f, items, s, w), s.busy[w];
    assert s'.failed == s.failed + [i] && s'.busy == s.busy - {w};
    assert forall j :: j in s'.failed <==> j in s.failed || j == i;
  }

  lemma FinishKeeps<T, R(!new)>(f: T -> Option<R>, items: seq<T>, s: State<R>, w: nat)
    requires Working(f, items, s) && w in s.busy
    ensures Working(f, items, Finish(f, items, s, w))
  {
    FinishCovers(f, items, s, w);
    if f(items[s.busy[w]]) == None {
      RejectKeeps(f, items, s, w);
    } else {
      assert s.index < |items| ==> w in Finish(f, items, s, w).busy;
    }
  }

  /** What is left to do: indices to claim, and calls to end. */
  ghost function Left<T, R>(items: seq<T>, s: State<R>): int {
    |items| - s.index + |s.busy|
  }

  lemma FinishProgress<T, R(!new)>(f: T -> Option<R>, items: seq<T>, s: State<R>, w: nat)
    requires Working(f, items, s) && EachOnce(s.calls, s.index) && w in s.busy
    ensures var s' := Finish(f, items, s, w);
      EachOnce(s'.calls, s'.index) && Left(items, s') <= Left(items, s) - 1 && |s'.busy| <= |s.busy|
  {
    var s' := Finish(f, items, s, w);
    if f(items[s.busy[w]]).Some? && s.index < |items| {
      CallNext(s.calls, s.index);
      assert s'.busy.Keys == s.busy.Keys;
      assert |s'.busy.Keys| == |s.busy.Keys|;
    } else {
      assert s'.busy.Keys == s.busy.Keys - {w};
      assert |s'.busy.Keys| == |s.busy.Keys| - 1;
    }
  }

  /** The sparse array results, all of whose first n slots have been filled. */
  function Listed<R>(results: map<nat, R>, n: nat): (r: seq<R>)
    requires forall i: nat :: i < n ==> i in results
    ensures |r| == n && forall i :: 0 <= i < n ==> r[i] == results[i]
  {
    seq(n, i requires 0 <= i < n => results[i])
  }

  /** The state in which w workers have been started and each has claimed one index. */
  ghost predicate Launched<R(!new)>(w: nat, s: State<R>) {
    && s.index == w && s.results == map[] && s.failed == [] && |s.busy| == w && EachOnce(s.calls, w)
    && (forall v: nat :: v in s.busy <==> v < w) && (forall v :: v in s.busy ==> s.busy[v] == v)
  }

  lemma LaunchNext<R(!new)>(w: nat, s: State<R>)
    requires Launched(w, s)
    ensures Launched(w + 1, Claim(s, w))
  {
    CallNext(s.calls, w);
    assert s.busy[w := w].Keys == s.busy.Keys + {w};
  }

  lemma LaunchedWorks<T, R(!new)>(f: T -> Option<R>, items: seq<T>, w: nat, s: State<R>)
    requires Launched(w, s) && 0 < w <= |items|
    ensures Working(f, items, s)
  {
    assert 0 in s.busy;
    forall i: nat | i < s.index && i !in s.results && i !in s.failed ensures exists v :: v in s.busy && s.busy[v] == i {
      assert i in s.busy && s.busy[i] == i;
    }
  }

  /** calls records the indices map was called on, in the order of the calls, and peak the greatest number of calls
      pending at once. Once a call has rejected mapReduce rejects, while the other workers go on. */
  method MapReduce<T, R(!new)>(items: seq<T>, f: T -> Option<R>, reduce: (R, R) -> R, concurrency: Option<int>)
      returns (outcome: Outcome<R>, calls: seq<nat>, peak: nat)
    ensures items == [] ==> outcome == NoItems && calls == []
    ensures items != [] && Workers(concurrency, |items|) == 0 ==> outcome == ReduceOfEmpty && calls == []
    ensures items != [] && Workers(concurrency, |items|) > 0 ==>
              if AllResolve(f, items)
              then outcome == Value(Reduce(reduce, MapAll(f, items))) && EachOnce(calls, |items|)
              else outcome.Rejected? && outcome.item in calls && outcome.item < |items| && f(items[outcome.item]).None?
    ensures outcome.Value? ==> FoldsTo(f, items, reduce, outcome.r)
    ensures peak == if concurrency.None? || concurrency.value > |items| then |items|
                    else if concurrency.value < 0 then 0 else concurrency.value
    ensures exists m: nat :: m <= |items| && EachOnce(calls, m)
  {
    if |items| == 0 {
      assert EachOnce([], 0);
      return NoItems, [], 0;
    }
    var numWorkers := Workers(concurrency, |items|);
    var s: State<R> := State(0, map[], map[], [], []);
    peak := 0;
    for w := 0 to numWorkers
      invariant Launched(w, s) && peak == w && (w == 0 ==> s.calls == [])
    {
      LaunchNext(w, s);
      s := Claim(s, w);
      peak := Max(|s.busy|, peak);
    }
    if numWorkers == 0 {
      return ReduceOfEmpty, s.calls, peak;
    }
    LaunchedWorks(f, items, numWorkers, s);
    s, peak := RunWorkers(items, f, numWorkers, s, peak);
    if |s.failed| > 0 {
      assert s.failed[0] in s.failed;
      return Rejected(s.failed[0]), s.calls, peak;
    }
    AllDone(f, items, s);
    ReducedIsFolded(f, items, reduce);
    return Value(Reduce(reduce, Listed(s.results, |items|))), s.calls, peak;
  }

  lemma AllDone<T, R(!new)>(f: T -> Option<R>, items: seq<T>, s: State<R>)
    requires Working(f, items, s) && s.busy == map[] && s.failed == [] && s.index == |items|
    ensures AllResolve(f, items) && forall i: nat :: i < |items| ==> i in s.results
    ensures Listed(s.results, |items|) == MapAll(f, items)
  {
    forall i: nat | i < |items| ensures i in s.results && Some(s.results[i]) == f(items[i]) {
    }
  }

  /** From the first await on: as long as calls are pending, any one of them ends. */
  method RunWorkers<T, R(!new)>(items: seq<T>, f: T -> Option<R>, numWorkers: nat, s0: State<R>, peak0: nat)
      returns (s: State<R>, peak: nat)
    requires Working(f, items, s0) && EachOnce(s0.calls, s0.index) && |s0.busy| <= numWorkers && peak0 <= numWorkers
    ensures Working(f, items, s) && s.busy == map[] && EachOnce(s.calls, s.index) && peak0 <= peak <= numWorkers
    ensures s.failed == [] ==> s.index == |items| && forall i: nat :: i in s.results <==> i < |items|
  {
    s, peak := s0, peak0;
    while s.busy != map[]
      invariant Working(f, items, s) && EachOnce(s.calls, s.index)
      invariant |s.busy| <= numWorkers && peak0 <= peak <= numWorkers
      decreases Left(items, s)
    {
      var w: nat :| w in s.busy;
      FinishKeeps(f, items, s, w);
      FinishProgress(f, items, s, w);
      s := Finish(f, items, s, w);
      peak := Max(|s.busy|, peak);
    }
  }
}
