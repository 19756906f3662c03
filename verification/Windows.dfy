/** SlidingWindowLogAlgorithm and FixedWindowAlgorithm of packages/limit/src/strategies.ts.

    The clock reading of each call is an argument, in whole milliseconds since the epoch. */
module Windows {
  import opened Integers
  import opened RateLimit

  datatype LogEntry = LogEntry(timestamp: int, count: int)

  type Logs = map<string, seq<LogEntry>>

  // ---------------------------------------------------------------- sliding log: one call

  /** logs.filter(l => l.timestamp > windowStart) */
  function Recent(log: seq<LogEntry>, windowStart: int): seq<LogEntry> {
    if log == [] then []
    else
      var front := Recent(log[..|log| - 1], windowStart);
      if log[|log| - 1].timestamp > windowStart then front + [log[|log| - 1]] else front
  }

  function Sum(log: seq<LogEntry>): int {
    if log == [] then 0 else Sum(log[..|log| - 1]) + log[|log| - 1].count
  }

  function LogOf(logs: Logs, key: string): seq<LogEntry> {
    if key in logs then logs[key] else []
  }

  function SlidingAllows(log: seq<LogEntry>, cost: int, limit: int, windowMs: int, now: int): bool {
    Sum(Recent(log, now - windowMs)) + cost <= limit
  }

  function SlidingNext(logs: Logs, key: string, cost: int, limit: int, windowMs: int, now: int): Logs {
    if SlidingAllows(LogOf(logs, key), cost, limit, windowMs, now)
    then logs[key := Recent(LogOf(logs, key), now - windowMs) + [LogEntry(now, cost)]]
    else logs
  }

  class SlidingWindowLog {
    var logs: Logs

    constructor ()
      ensures logs == map[]
    {
      logs := map[];
    }

    /** The entries newer than windowStart, and the sum of their counts. */
    method FilterAndSum(all: seq<LogEntry>, windowStart: int) returns (log: seq<LogEntry>, count: int)
      ensures log == Recent(all, windowStart) && count == Sum(log)
    {
      log, count := [], 0;
      for i := 0 to |all|
        invariant log == Recent(all[..i], windowStart) && count == Sum(log)
      {
        assert all[..i + 1][..i] == all[..i];
        if all[i].timestamp > windowStart {
          assert (log + [all[i]])[..|log|] == log;
          log := log + [all[i]];
          count := count + all[i].count;
        }
      }
      assert all[..|all|] == all;
    }

    method Consume(key: string, cost: int, limit: int, windowMs: int, now: int) returns (r: Decision<int>)
      modifies this
      ensures logs == SlidingNext(old(logs), key, cost, limit, windowMs, now)
      ensures r.allowed == SlidingAllows(LogOf(old(logs), key), cost, limit, windowMs, now)
      ensures r.total == Sum(Recent(LogOf(old(logs), key), now - windowMs)) + (if r.allowed then cost else 0)
      ensures r.remaining == Max(0, limit - r.total) && r.resetTime == now + windowMs
    {
      var windowStart := now - windowMs;
      var resetTime := now + windowMs;
      var log, currentCount := FilterAndSum(if key in logs then logs[key] else [], windowStart);
      var allowed := currentCount + cost <= limit;
      if allowed {
        log := log + [LogEntry(now, cost)];
        logs := logs[key := log];
      }
      var total := currentCount + if allowed then cost else 0;
      r := Decision(allowed, Max(0, limit - total), total, resetTime);
    }

    method Reset(key: string)
      modifies this
      ensures logs == old(logs) - {key}
    {
      logs := logs - {key};
    }
  }

  // ---------------------------------------------------------------- call sequences

  datatype Call = Consume(key: string, cost: int, now: int) | Reset(key: string)

  /** The limit and window each key is called with. */
  datatype Policy = Policy(limit: string -> int, windowMs: string -> int)

  function SlidingRun(policy: Policy, calls: seq<Call>, n: nat): Logs
    requires n <= |calls|
  {
    if n == 0 then map[]
    else
      var before := SlidingRun(policy, calls, n - 1);
      match calls[n - 1]
      case Consume(key, cost, now) => SlidingNext(before, key, cost, policy.limit(key), policy.windowMs(key), now)
      case Reset(key) => before - {key}
  }

  function SlidingAdmits(policy: Policy, calls: seq<Call>, n: nat): bool
    requires n < |calls|
  {
    calls[n].Consume? && var c := calls[n];
    SlidingAllows(LogOf(SlidingRun(policy, calls, n), c.key), c.cost, policy.limit(c.key), policy.windowMs(c.key),
      c.now)
  }

  predicate Consumes(c: Call, key: string) {
    c.Consume? && c.key == key
  }

  /** The cost admitted for key by the first n calls, counting those made in (a, b] and since the last reset of key. */
  function SlidingAdmitted(policy: Policy, calls: seq<Call>, n: nat, key: string, a: int, b: int): int
    requires n <= |calls|
  {
    if n == 0 || calls[n - 1] == Reset(key) then 0
    else
      SlidingAdmitted(policy, calls, n - 1, key, a, b)
      + if Consumes(calls[n - 1], key) && a < calls[n - 1].now <= b && SlidingAdmits(policy, calls, n - 1)
        then calls[n - 1].cost else 0
  }

  /** The calls for key have nonnegative costs and come in the order of the clock. */
  ghost predicate Orderly(calls: seq<Call>, key: string) {
    && (forall i :: 0 <= i < |calls| && Consumes(calls[i], key) ==> calls[i].cost >= 0 && calls[i].now >= 0)
    && (forall i, j :: 0 <= i < j < |calls| && Consumes(calls[i], key) && Consumes(calls[j], key)
                ==> calls[i].now <= calls[j].now)
  }

  lemma {:induction false} RecentRecent(log: seq<LogEntry>, a: int, b: int)
    requires a <= b
    ensures Recent(Recent(log, a), b) == Recent(log, b)
  {
    if log == [] {
    } else {
      RecentRecent(log[..|log| - 1], a, b);
    }
  }

  ghost predicate Accounted(policy: Policy, calls: seq<Call>, n: nat, key: string, a: int, b: int)
    requires n <= |calls|
  {
    Sum(Recent(LogOf(SlidingRun(policy, calls, n), key), a)) == SlidingAdmitted(policy, calls, n, key, a, b)
  }

  lemma AccountedStep(policy: Policy, calls: seq<Call>, p: nat, key: string, a: int, b: int)
    requires p < |calls| && Accounted(policy, calls, p, key, a, b)
    requires Consumes(calls[p], key) ==>
      calls[p].now <= b && (SlidingAdmits(policy, calls, p) ==> a >= calls[p].now - policy.windowMs(key))
    ensures Accounted(policy, calls, p + 1, key, a, b)
  {
    var log, log' := LogOf(SlidingRun(policy, calls, p), key), LogOf(SlidingRun(policy, calls, p + 1), key);
    if Consumes(calls[p], key) && SlidingAdmits(policy, calls, p) {
      SavedLog(log, log', calls[p].now, calls[p].cost, policy.windowMs(key), a);
    }
  }

  /** Although old entries are dropped, the saved log accounts for everything admitted since a, for every a no
      earlier than one window before the last call. */
  lemma {:induction false} LogAccounts(policy: Policy, calls: seq<Call>, n: nat, key: string, a: int, b: int)
    requires n <= |calls| && Orderly(calls, key)
    requires forall i :: 0 <= i < n && Consumes(calls[i], key) ==> calls[i].now <= b
    requires forall i :: 0 <= i < n && Consumes(calls[i], key) ==> a >= calls[i].now - policy.windowMs(key)
    ensures Accounted(policy, calls, n, key, a, b)
  {
    if n == 0 {
    } else {
      var p := n - 1;
      LogAccounts(policy, calls, p, key, a, b);
      AccountedStep(policy, calls, p, key, a, b);
    }
  }

  /** What an admitted call saves, pruned as it is, sums to the same as the unpruned log since any later a. */
  lemma SavedLog(log: seq<LogEntry>, log': seq<LogEntry>, now: int, cost: int, windowMs: int, a: int)
    requires a >= now - windowMs && log' == Recent(log, now - windowMs) + [LogEntry(now, cost)]
    ensures Sum(Recent(log', a))
         == Sum(Recent(log, a)) + if now > a then cost else 0
  {
    var kept, e := Recent(log, now - windowMs), LogEntry(now, cost);
    RecentRecent(log, now - windowMs, a);
    assert log'[..|log'| - 1] == kept && log'[|log'| - 1] == e;
    assert Recent(log', a) == if now > a then Recent(log, a) + [e] else Recent(log, a);
    assert (Recent(log, a) + [e])[..|Recent(log, a)|] == Recent(log, a);
  }

  /** A call is admitted if and only if what was admitted in the window (now - windowMs, now] since the last reset,
      plus its cost, is within the limit. */
  lemma SlidingDecision(policy: Policy, calls: seq<Call>, n: nat)
    requires n < |calls| && calls[n].Consume? && Orderly(calls, calls[n].key)
    ensures var c := calls[n];
      SlidingAdmits(policy, calls, n)
      <==> SlidingAdmitted(policy, calls, n, c.key, c.now - policy.windowMs(c.key),
        c.now) + c.cost <= policy.limit(c.key)
  {
    LogAccounts(policy, calls, n, calls[n].key, calls[n].now - policy.windowMs(calls[n].key), calls[n].now);
  }

  lemma {:induction false} AdmittedMonotone(
      policy: Policy, calls: seq<Call>, n: nat, key: string, a: int, b: int, a': int, b': int)
    requires n <= |calls| && Orderly(calls, key) && a' <= a
    requires forall i :: 0 <= i < n && Consumes(calls[i], key) ==> calls[i].now <= b'
    ensures SlidingAdmitted(policy, calls, n, key, a, b) <= SlidingAdmitted(policy, calls, n, key, a', b')
  {
    if n == 0 {
    } else {
      AdmittedMonotone(policy, calls, n - 1, key, a, b, a', b');
      assert Consumes(calls[n - 1], key) ==> calls[n - 1].cost >= 0 && calls[n - 1].now <= b';
    }
  }

  /** Without a reset of the key in between, never more than the limit is admitted in any half-open interval
      (a, a + windowMs]. */
  lemma {:induction false} SlidingBound(policy: Policy, calls: seq<Call>, n: nat, key: string, a: int)
    requires n <= |calls| && Orderly(calls, key) && policy.limit(key) >= 0
    ensures SlidingAdmitted(policy, calls, n, key, a, a + policy.windowMs(key)) <= policy.limit(key)
  {
    if n == 0 {
    } else {
      var p := n - 1;
      SlidingBound(policy, calls, p, key, a);
      var c := calls[p];
      if Consumes(c, key) && a < c.now <= a + policy.windowMs(key) && SlidingAdmits(policy, calls, p) {
        SlidingDecision(policy, calls, p);
        AdmittedMonotone(policy, calls, p, key, a, a + policy.windowMs(key), c.now - policy.windowMs(key), c.now);
      }
    }
  }

  // ---------------------------------------------------------------- fixed window: one call

  datatype Window = Window(count: int, windowStart: int)

  type WindowMap = map<string, Window>

  /** JavaScript's remainder: the sign of the dividend, whatever that of the divisor. */
  function Remainder(a: int, b: int): int
    requires b != 0
  {
    if a >= 0 then a % b else -(-a % b)
  }

  function WindowStart(now: int, windowMs: int): int
    requires windowMs != 0
  {
    now - Remainder(now, windowMs)
  }

  function Counted(windows: WindowMap, key: string, cost: int, windowMs: int, now: int): Window
    requires windowMs != 0
  {
    if key in windows && windows[key].windowStart == WindowStart(now, windowMs)
    then windows[key].(count := windows[key].count + cost)
    else Window(cost, WindowStart(now, windowMs))
  }

  class FixedWindow {
    var windows: WindowMap

    constructor ()
      ensures windows == map[]
    {
      windows := map[];
    }

    method Consume(key: string, cost: int, limit: int, windowMs: int, now: int) returns (r: Decision<int>)
      requires windowMs != 0
      modifies this
      ensures var w := Counted(old(windows), key, cost, windowMs, now);
        && windows == old(windows)[key := w]
        && r == Decision(w.count <= limit, Max(0, limit - w.count), w.count, WindowStart(now, windowMs) + windowMs)
    {
      var windowStart := now - Remainder(now, windowMs);
      var resetTime := windowStart + windowMs;
      if key !in windows || windows[key].windowStart != windowStart {
        windows := windows[key := Window(0, windowStart)];
      }
      var window := windows[key].(count := windows[key].count + cost);
      windows := windows[key := window];
      r := Decision(window.count <= limit, Max(0, limit - window.count), window.count, resetTime);
    }

    method Reset(key: string)
      modifies this
      ensures windows == old(windows) - {key}
    {
      windows := windows - {key};
    }
  }

  ghost predicate Sensible(policy: Policy) {
    forall k :: policy.windowMs(k) > 0
  }

  function FixedRun(policy: Policy, calls: seq<Call>, n: nat): WindowMap
    requires Sensible(policy) && n <= |calls|
  {
    if n == 0 then map[]
    else
      var before := FixedRun(policy, calls, n - 1);
      match calls[n - 1]
      case Consume(key, cost, now) => before[key := Counted(before, key, cost, policy.windowMs(key), now)]
      case Reset(key) => before - {key}
  }

  function FixedAdmits(policy: Policy, calls: seq<Call>, n: nat): bool
    requires Sensible(policy) && n < |calls|
  {
    calls[n].Consume? && var c := calls[n];
    Counted(FixedRun(policy, calls, n), c.key, c.cost, policy.windowMs(c.key), c.now).count <= policy.limit(c.key)
  }

  /** The greatest multiple of the window that is no later than now. */
  function Start(now: int, windowMs: int): int
    requires windowMs > 0
  {
    now - now % windowMs
  }

  /** The cost requested for key by the first n calls in the aligned window starting at `start` since the last reset of
      key, admitted or not. */
  function Requested(policy: Policy, calls: seq<Call>, n: nat, key: string, start: int): int
    requires Sensible(policy) && n <= |calls|
  {
    if n == 0 || calls[n - 1] == Reset(key) then 0
    else
      Requested(policy, calls, n - 1, key, start)
      + if Consumes(calls[n - 1], key) && Start(calls[n - 1].now, policy.windowMs(key)) == start
        then calls[n - 1].cost else 0
  }

  /** The cost admitted for key by the first n calls, counting those made in [s, t] and since the last reset of key. */
  function FixedAdmitted(policy: Policy, calls: seq<Call>, n: nat, key: string, s: int, t: int): int
    requires Sensible(policy) && n <= |calls|
  {
    if n == 0 || calls[n - 1] == Reset(key) then 0
    else
      FixedAdmitted(policy, calls, n - 1, key, s, t)
      + if Consumes(calls[n - 1], key) && s <= calls[n - 1].now <= t && FixedAdmits(policy, calls, n - 1)
        then calls[n - 1].cost else 0
  }

  lemma StartFacts(x: int, y: int, w: int)
    requires w > 0
    ensures Start(x, w) <= x < Start(x, w) + w
    ensures x <= y ==> Start(x, w) <= Start(y, w)
    ensures x < y && Start(x, w) != Start(y, w) ==> Start(x, w) + w <= Start(y, w)
  {
    var i, j := x / w, y / w;
    assert Start(x, w) == w * i && Start(y, w) == w * j;
    if x <= y {
      if i > j {
        Multiples(w, j, i);
      } else if i < j {
        Multiples(w, i, j);
      }
    }
  }

  lemma {:induction false} AtLeastOnce(w: int, d: int)
    requires w > 0 && d >= 1
    ensures w * d >= w
    decreases d
  {
    if d > 1 {
      AtLeastOnce(w, d - 1);
      assert w * d == w * (d - 1) + w;
    }
  }

  lemma Multiples(w: int, i: int, j: int)
    requires w > 0 && i < j
    ensures w * i + w <= w * j
  {
    AtLeastOnce(w, j - i);
    assert w * j == w * i + w * (j - i);
  }

  /** The counter of key holds what was requested in its window, and no later window has seen a request. */
  lemma {:induction false} CounterIsRequested(policy: Policy, calls: seq<Call>, n: nat, key: string, start: int)
    requires Sensible(policy) && n <= |calls| && Orderly(calls, key)
    ensures var run := FixedRun(policy, calls, n);
      if key in run
      then (start == run[key].windowStart ==> run[key].count == Requested(policy, calls, n, key, start))
           && (start > run[key].windowStart ==> Requested(policy, calls, n, key, start) == 0)
           && (exists i :: 0 <= i < n && Consumes(calls[i], key) &&
                 Start(calls[i].now, policy.windowMs(key)) == run[key].windowStart)
      else Requested(policy, calls, n, key, start) == 0
  {
    if n == 0 {
    } else {
      var c, before, w := calls[n - 1], FixedRun(policy, calls, n - 1), policy.windowMs(key);
      CounterIsRequested(policy, calls, n - 1, key, start);
      if Consumes(c, key) && key in before {
        var i :| 0 <= i < n - 1 && Consumes(calls[i], key) && Start(calls[i].now, w) == before[key].windowStart;
        StartFacts(calls[i].now, c.now, w);
      }
    }
  }

  /** A call is admitted if and only if everything requested in its aligned window since the last reset, itself
      included, is within the limit. */
  lemma FixedDecision(policy: Policy, calls: seq<Call>, n: nat)
    requires Sensible(policy) && n < |calls| && calls[n].Consume? && Orderly(calls, calls[n].key)
    ensures var c := calls[n];
      FixedAdmits(policy, calls, n)
      <==> Requested(policy, calls, n, c.key, Start(c.now, policy.windowMs(c.key))) + c.cost <= policy.limit(c.key)
  {
    var c, run := calls[n], FixedRun(policy, calls, n);
    var start := Start(c.now, policy.windowMs(c.key));
    CounterIsRequested(policy, calls, n, c.key, start);
    if c.key in run {
      var i :| 0 <= i < n && Consumes(calls[i], c.key)
        && Start(calls[i].now, policy.windowMs(c.key)) == run[c.key].windowStart;
      StartFacts(calls[i].now, c.now, policy.windowMs(c.key));
    }
  }

  /** In an aligned window no more than the limit is admitted, and no more than was requested. */
  lemma {:induction false} AlignedBound(policy: Policy, calls: seq<Call>, n: nat, key: string, start: int)
    requires Sensible(policy) && n <= |calls| && Orderly(calls, key) && policy.limit(key) >= 0
    requires start % policy.windowMs(key) == 0
    ensures var admitted := FixedAdmitted(policy, calls, n, key, start, start + policy.windowMs(key) - 1);
      admitted <= policy.limit(key) && admitted <= Requested(policy, calls, n, key, start)
  {
    if n == 0 {
    } else {
      AlignedBound(policy, calls, n - 1, key, start);
      var c, w := calls[n - 1], policy.windowMs(key);
      if Consumes(c, key) && start <= c.now <= start + w - 1 {
        StartOfAligned(c.now, start, w);
        FixedDecision(policy, calls, n - 1);
      }
    }
  }

  lemma StartOfAligned(x: int, start: int, w: int)
    requires w > 0 && start % w == 0 && start <= x < start + w
    ensures Start(x, w) == start
  {
    StartFacts(start, x, w);
    if start != x && Start(x, w) != Start(start, w) {
      assert false;
    }
  }

  lemma {:induction false} FixedSplit(
      policy: Policy, calls: seq<Call>, n: nat, key: string, s: int, t: int, a: int, b: int)
    requires Sensible(policy) && n <= |calls| && Orderly(calls, key) && a <= s && t <= b && a <= b
    ensures 0 <= FixedAdmitted(policy, calls, n, key, s, t) <= FixedAdmitted(policy, calls, n, key, a, b)
    ensures forall m :: a <= m < b ==>
      FixedAdmitted(policy, calls, n, key, a, b)
      == FixedAdmitted(policy, calls, n, key, a, m) + FixedAdmitted(policy, calls, n, key, m + 1, b)
  {
    if n == 0 {
    } else {
      FixedSplit(policy, calls, n - 1, key, s, t, a, b);
    }
  }

  lemma Multiple(w: int, i: int)
    requires w > 0
    ensures (w * i) % w == 0
  {
    var q, r := (w * i) / w, (w * i) % w;
    assert w * i == w * q + r && 0 <= r < w;
    if q < i {
      Multiples(w, q, i);
    } else if i < q {
      Multiples(w, i, q);
    }
  }

  // ---------------------------------------------------------------- fixed window: any interval

  /** The start of the k-th aligned window from the one s lies in. */
  function NthStart(s: int, w: int, k: nat): int
    requires w > 0
  {
    Start(s, w) + w * k
  }

  lemma NthStartFacts(s: int, w: int, k: nat)
    requires w > 0
    ensures NthStart(s, w, 0) == Start(s, w) && NthStart(s, w, k + 1) == NthStart(s, w, k) + w
    ensures NthStart(s, w, k) % w == 0
  {
    assert w * (k + 1) == w * k + w;
    assert NthStart(s, w, k) == w * (s / w + k);
    Multiple(w, s / w + k);
  }

  /** How many aligned windows the interval [s, t] touches. */
  function Spans(s: int, t: int, w: int): nat
    requires w > 0 && s <= t
  {
    QuotientsGrow(s, t, w);
    t / w - s / w + 1
  }

  lemma SpansFacts(s: int, t: int, w: int)
    requires w > 0 && s <= t
    ensures s / w <= t / w
    ensures NthStart(s, w, Spans(s, t, w) - 1) == Start(t, w) <= t < NthStart(s, w, Spans(s, t, w))
    ensures Spans(s, t, w) == 1 <==> Start(s, w) == Start(t, w)
  {
    StartFacts(t, t, w);
    QuotientsGrow(s, t, w);
    StartIs(s, w);
    StartIs(t, w);
    SameMultiple(w, s / w, t / w);
    NthStartFacts(s, w, Spans(s, t, w) - 1);
  }

  lemma StartIs(x: int, w: int)
    requires w > 0
    ensures Start(x, w) == w * (x / w)
  {
  }

  lemma QuotientsGrow(s: int, t: int, w: int)
    requires w > 0 && s <= t
    ensures s / w <= t / w
  {
    if t / w < s / w {
      Multiples(w, t / w, s / w);
      StartIs(s, w);
      StartIs(t, w);
      StartFacts(t, t, w);
      StartFacts(s, s, w);
    }
  }

  lemma SameMultiple(w: int, i: int, j: int)
    requires w > 0 && i <= j
    ensures w * i + w * (j - i) == w * j
    ensures w * i == w * j <==> i == j
  {
    if i < j {
      Multiples(w, i, j);
    }
  }

  lemma {:induction false} RunBound(policy: Policy, calls: seq<Call>, n: nat, key: string, s: int, m: nat)
    requires Sensible(policy) && n <= |calls| && Orderly(calls, key) && policy.limit(key) >= 0
    ensures var w := policy.windowMs(key);
      FixedAdmitted(policy, calls, n, key, NthStart(s, w, 0), NthStart(s, w, m + 1) - 1) <= policy.limit(key) * (m + 1)
  {
    var w, limit := policy.windowMs(key), policy.limit(key);
    NthStartFacts(s, w, m);
    var a, b := NthStart(s, w, 0), NthStart(s, w, m);
    AlignedBound(policy, calls, n, key, b);
    if m == 0 {
      assert limit * (m + 1) == limit;
    } else {
      RunBound(policy, calls, n, key, s, m - 1);
      StartsGrow(s, w, m);
      FixedSplit(policy, calls, n, key, a, b, a, b + w - 1);
      assert a <= b - 1 < b + w - 1;
      assert limit * (m + 1) == limit * m + limit;
    }
  }

  lemma StartsGrow(s: int, w: int, k: nat)
    requires w > 0
    ensures NthStart(s, w, k) >= NthStart(s, w, 0)
    ensures k > 0 ==> NthStart(s, w, k) > s
  {
    NthStartFacts(s, w, 0);
    StartFacts(s, s, w);
    if k > 0 {
      AtLeastOnce(w, k);
    }
  }

  /** In any interval at most the limit is admitted for each aligned window it touches. */
  lemma IntervalBound(policy: Policy, calls: seq<Call>, n: nat, key: string, s: int, t: int)
    requires Sensible(policy) && n <= |calls| && Orderly(calls, key) && policy.limit(key) >= 0 && s <= t
    ensures FixedAdmitted(policy, calls, n, key, s, t) <= policy.limit(key) * Spans(s, t, policy.windowMs(key))
  {
    var w := policy.windowMs(key);
    var m := Spans(s, t, w);
    SpansFacts(s, t, w);
    RunBound(policy, calls, n, key, s, m - 1);
    NthStartFacts(s, w, 0);
    StartFacts(s, s, w);
    FixedSplit(policy, calls, n, key, s, t, NthStart(s, w, 0), NthStart(s, w, m) - 1);
  }

  /** In any interval [s, s + windowMs] at most twice the limit is admitted. */
  lemma FixedBound(policy: Policy, calls: seq<Call>, n: nat, key: string, s: int)
    requires Sensible(policy) && n <= |calls| && Orderly(calls, key) && policy.limit(key) >= 0
    ensures FixedAdmitted(policy, calls, n, key, s, s + policy.windowMs(key)) <= 2 * policy.limit(key)
  {
    var w := policy.windowMs(key);
    IntervalBound(policy, calls, n, key, s, s + w);
    SpansFacts(s, s + w, w);
    NextSpan(s, w);
  }

  lemma NextSpan(s: int, w: int)
    requires w > 0
    ensures Spans(s, s + w, w) == 2
  {
    var q := (s + w) / w;
    assert s + w == w * q + (s + w) % w && s == w * (s / w) + s % w;
    assert w * (s / w + 1) == w * (s / w) + w;
    if q < s / w + 1 {
      Multiples(w, q, s / w + 1);
    } else if q > s / w + 1 {
      Multiples(w, s / w + 1, q);
    }
  }

  /** The time of a call in the k-th window, s itself in the first. */
  function TimeIn(s: int, w: int, k: nat): int
    requires w > 0
  {
    if k == 0 then s else NthStart(s, w, k)
  }

  /** One call of the given cost in each of the first n aligned windows from s on. */
  function OnePerWindow(key: string, cost: int, s: int, w: int, n: nat): (calls: seq<Call>)
    requires w > 0
    ensures |calls| == n && forall k :: 0 <= k < n ==> calls[k] == Consume(key, cost, TimeIn(s, w, k))
  {
    seq(n, k requires 0 <= k < n => Consume(key, cost, TimeIn(s, w, k)))
  }

  lemma {:induction false} TimesGrow(s: int, w: int, j: nat, k: nat)
    requires w > 0 && j <= k
    ensures s <= TimeIn(s, w, j) <= TimeIn(s, w, k)
    ensures Start(TimeIn(s, w, k), w) == NthStart(s, w, k)
    ensures j < k ==> NthStart(s, w, j) < NthStart(s, w, k)
  {
    NthStartFacts(s, w, k);
    StartsGrow(s, w, k);
    StartsGrow(s, w, j);
    if k > 0 {
      StartOfAligned(NthStart(s, w, k), NthStart(s, w, k), w);
    }
    if j < k {
      TimesGrow(s, w, j, k - 1);
      NthStartFacts(s, w, k - 1);
    }
  }

  lemma OnePerWindowOrderly(key: string, cost: nat, s: nat, w: int, n: nat)
    requires w > 0
    ensures Orderly(OnePerWindow(key, cost, s, w, n), key)
  {
    forall j, k | 0 <= j <= k < n ensures s <= TimeIn(s, w, j) <= TimeIn(s, w, k) {
      TimesGrow(s, w, j, k);
    }
  }

  lemma {:induction false} NotYetRequested(policy: Policy, key: string, cost: int, s: int, n: nat, i: nat, k: nat)
    requires Sensible(policy) && i <= n && i <= k
    ensures var w := policy.windowMs(key);
      Requested(policy, OnePerWindow(key, cost, s, w, n), i, key, NthStart(s, w, k)) == 0
  {
    if i == 0 {
    } else {
      NotYetRequested(policy, key, cost, s, n, i - 1, k);
      TimesGrow(s, policy.windowMs(key), i - 1, i - 1);
      TimesGrow(s, policy.windowMs(key), i - 1, k);
    }
  }

  lemma NextAdmitted(policy: Policy, key: string, cost: nat, s: nat, n: nat, i: nat)
    requires Sensible(policy) && cost <= policy.limit(key) && i < n
    ensures FixedAdmits(policy, OnePerWindow(key, cost, s, policy.windowMs(key), n), i)
  {
    var w := policy.windowMs(key);
    OnePerWindowOrderly(key, cost, s, w, n);
    NotYetRequested(policy, key, cost, s, n, i, i);
    TimesGrow(s, w, i, i);
    FixedDecision(policy, OnePerWindow(key, cost, s, w, n), i);
  }

  lemma {:induction false} AllAdmitted(policy: Policy, key: string, cost: nat, s: nat, t: int, n: nat, i: nat)
    requires Sensible(policy) && cost <= policy.limit(key) && i <= n
    requires forall k: nat :: k < n ==> TimeIn(s, policy.windowMs(key), k) <= t
    ensures FixedAdmitted(policy, OnePerWindow(key, cost, s, policy.windowMs(key), n), i, key, s, t) == cost * i
  {
    if i == 0 {
    } else {
      AllAdmitted(policy, key, cost, s, t, n, i - 1);
      NextAdmitted(policy, key, cost, s, n, i - 1);
      TimesGrow(s, policy.windowMs(key), i - 1, i - 1);
      OneMore(cost, i);
    }
  }

  lemma OneMore(cost: nat, i: nat)
    requires i > 0
    ensures cost * i == cost * (i - 1) + cost
  {
  }

  /** The bound for an interval is reached: one call of the whole limit in each aligned window it touches. */
  lemma IntervalBoundIsReached(policy: Policy, key: string, s: nat, t: int)
    requires Sensible(policy) && policy.limit(key) >= 0 && s <= t
    ensures var w, limit := policy.windowMs(key), policy.limit(key);
      var calls := OnePerWindow(key, limit, s, w, Spans(s, t, w));
      Orderly(calls, key) && FixedAdmitted(policy, calls, |calls|, key, s, t) == limit * Spans(s, t, w)
  {
    var w := policy.windowMs(key);
    var m := Spans(s, t, w);
    SpansFacts(s, t, w);
    OnePerWindowOrderly(key, policy.limit(key), s, w, m);
    forall k: nat | k < m ensures TimeIn(s, w, k) <= t {
      TimesGrow(s, w, k, m - 1);
    }
    AllAdmitted(policy, key, policy.limit(key), s, t, m, m);
  }

  ghost predicate NeverMore(policy: Policy, key: string, s: int, t: int, bound: int)
    requires Sensible(policy)
  {
    forall calls: seq<Call> :: Orderly(calls, key) ==> FixedAdmitted(policy, calls, |calls|, key, s, t) <= bound
  }

  /** The limit for each aligned window touched is the least bound there is for what an interval admits. */
  lemma LeastBound(policy: Policy, key: string, s: nat, t: int, bound: int)
    requires Sensible(policy) && policy.limit(key) >= 0 && s <= t
    ensures NeverMore(policy, key, s, t, bound) <==> policy.limit(key) * Spans(s, t, policy.windowMs(key)) <= bound
  {
    IntervalBoundIsReached(policy, key, s, t);
    forall calls: seq<Call> | Orderly(calls, key)
      ensures FixedAdmitted(policy, calls, |calls|, key, s, t) <= policy.limit(key) * Spans(s, t, policy.windowMs(key))
    {
      IntervalBound(policy, calls, |calls|, key, s, t);
    }
  }

  /** The limit itself holds for an interval if and only if the interval lies in one aligned window. */
  lemma WithinLimitIff(policy: Policy, key: string, s: nat, t: int)
    requires Sensible(policy) && policy.limit(key) > 0 && s <= t
    ensures NeverMore(policy, key, s, t, policy.limit(key))
        <==> Start(s, policy.windowMs(key)) == Start(t, policy.windowMs(key))
  {
    var w := policy.windowMs(key);
    LeastBound(policy, key, s, t, policy.limit(key));
    SpansFacts(s, t, w);
    AtLeastOnce(policy.limit(key), Spans(s, t, w));
    if Spans(s, t, w) > 1 {
      Multiples(policy.limit(key), 1, Spans(s, t, w));
    }
  }
}
