/** The timestamp-based CircuitBreaker of packages/breaker/src/circuit-breaker.ts.

    execute is split at its await: Begin is what runs before the operation, OnSuccess or OnFailure what runs when it
    ends, and between the two anything may happen. Clock readings are arguments. `counted` stands for the verdict of
    the configured isFailure, which is true when none is configured. */
module CircuitBreaker {
  import opened Common

  datatype Mode = Closed | Open | HalfOpen

  datatype Config = Config(threshold: int, resetTimeout: int)

  datatype Breaker = Breaker(mode: Mode, failures: int, successes: int, totalRequests: int,
                             lastFailure: Option<int>, lastSuccess: Option<int>, nextAttempt: Option<int>)

  const FRESH := Breaker(Closed, 0, 0, 0, None, None, None)

  /** How execute goes on: the operation starts, or it is refused until resetTime, with the configured fallback's
      answer or with the error itself. */
  datatype Admission = Started | FellBack(resetTime: Option<int>) | Refused(resetTime: Option<int>)

  // ---------------------------------------------------------------- transitions as functions

  function ToOpen(c: Config, b: Breaker, now: int): Breaker {
    b.(mode := Open, nextAttempt := Some(now + c.resetTimeout))
  }

  function ToHalfOpen(b: Breaker): Breaker {
    b.(mode := HalfOpen, failures := 0, successes := 0)
  }

  function ToClosed(b: Breaker): Breaker {
    b.(mode := Closed, failures := 0, successes := 0, nextAttempt := None)
  }

  function Looked(b: Breaker, now: int): Breaker {
    if b.mode == Open && b.nextAttempt.Some? && now >= b.nextAttempt.value then ToHalfOpen(b) else b
  }

  function Succeeded(b: Breaker, now: int): Breaker {
    var counted := b.(successes := b.successes + 1, lastSuccess := Some(now));
    if b.mode == HalfOpen then ToClosed(counted) else counted
  }

  function Failed(c: Config, b: Breaker, now: int): Breaker {
    var counted := b.(failures := b.failures + 1, lastFailure := Some(now));
    if b.mode == HalfOpen || (b.mode == Closed && counted.failures >= c.threshold)
      then ToOpen(c, counted, now) else counted
  }

  // ---------------------------------------------------------------- the class

  class CircuitBreaker {
    const threshold: int
    const resetTimeout: int
    const hasFallback: bool
    var mode: Mode
    var failures: int
    var successes: int
    var totalRequests: int
    var lastFailure: Option<int>
    var lastSuccess: Option<int>
    var nextAttempt: Option<int>

    ghost function Abs(): Breaker
      reads this
    {
      Breaker(mode, failures, successes, totalRequests, lastFailure, lastSuccess, nextAttempt)
    }

    ghost function Cfg(): Config {
      Config(threshold, resetTimeout)
    }

    constructor (threshold: Option<int>, resetTimeout: Option<int>, hasFallback: bool)
      ensures Cfg() == Config(if threshold.Some? then threshold.value else 5,
                              if resetTimeout.Some? then resetTimeout.value else 30_000)
      ensures Abs() == FRESH && this.hasFallback == hasFallback
    {
      this.hasFallback := hasFallback;
      this.threshold := if threshold.Some? then threshold.value else 5;
      this.resetTimeout := if resetTimeout.Some? then resetTimeout.value else 30_000;
      mode, failures, successes, totalRequests := Closed, 0, 0, 0;
      lastFailure, lastSuccess, nextAttempt := None, None, None;
    }

    method GetState(now: int) returns (current: Mode)
      modifies this
      ensures Abs() == Looked(old(Abs()), now) && current == mode
    {
      if mode == Open {
        if nextAttempt.Some? && now >= nextAttempt.value {
          TransitionToHalfOpen();
        }
      }
      return mode;
    }

    /** The part of execute before the operation. */
    method Begin(now: int) returns (admission: Admission)
      modifies this
      ensures var looked := Looked(old(Abs()), now);
        && admission == (if looked.mode != Open then Started
                         else if hasFallback then FellBack(looked.nextAttempt) else Refused(looked.nextAttempt))
        && Abs() == if admission.Started? then looked.(totalRequests := looked.totalRequests + 1) else looked
    {
      var current := GetState(now);
      if current == Open {
        if hasFallback {
          return FellBack(nextAttempt);
        }
        return Refused(nextAttempt);
      }
      totalRequests := totalRequests + 1;
      return Started;
    }

    method OnSuccess(now: int)
      modifies this
      ensures Abs() == Succeeded(old(Abs()), now)
    {
      successes := successes + 1;
      lastSuccess := Some(now);
      if mode == HalfOpen {
        TransitionToClosed();
      }
    }

    method OnFailure(counted: bool, now: int)
      modifies this
      ensures Abs() == if counted then Failed(Cfg(), old(Abs()), now) else old(Abs())
    {
      if !counted {
        return;
      }
      failures := failures + 1;
      lastFailure := Some(now);
      if mode == HalfOpen {
        TransitionToOpen(now);
      } else if mode == Closed && failures >= threshold {
        TransitionToOpen(now);
      }
    }

    method TransitionToOpen(now: int)
      modifies this
      ensures Abs() == ToOpen(Cfg(), old(Abs()), now)
    {
      mode := Open;
      nextAttempt := Some(now + resetTimeout);
    }

    method TransitionToHalfOpen()
      modifies this
      ensures Abs() == ToHalfOpen(old(Abs()))
    {
      mode := HalfOpen;
      failures := 0;
      successes := 0;
    }

    method TransitionToClosed()
      modifies this
      ensures Abs() == ToClosed(old(Abs()))
    {
      mode := Closed;
      failures := 0;
      successes := 0;
      nextAttempt := None;
    }

    method Reset()
      modifies this
      ensures Abs() == FRESH
    {
      mode, failures, successes, totalRequests := Closed, 0, 0, 0;
      lastFailure, lastSuccess, nextAttempt := None, None, None;
    }

    method ForceOpen(now: int)
      modifies this
      ensures Abs() == ToOpen(Cfg(), old(Abs()), now)
    {
      TransitionToOpen(now);
    }

    method ForceClosed()
      modifies this
      ensures Abs() == ToClosed(old(Abs()))
    {
      TransitionToClosed();
    }
  }

  // ---------------------------------------------------------------- runs

  datatype Event =
    | Look
    | Begin
    | Succeed
    | Fail(counted: bool)
    | Reset
    | ForceOpen
    | ForceClosed

  datatype Timed = Timed(event: Event, now: int)

  function Next(c: Config, b: Breaker, e: Timed): Breaker {
    match e.event
    case Look => Looked(b, e.now)
    case Begin =>
      var looked := Looked(b, e.now);
      if looked.mode == Open then looked else looked.(totalRequests := looked.totalRequests + 1)
    case Succeed => Succeeded(b, e.now)
    case Fail(counted) => if counted then Failed(c, b, e.now) else b
    case Reset => FRESH
    case ForceOpen => ToOpen(c, b, e.now)
    case ForceClosed => ToClosed(b)
  }

  function Run(c: Config, trace: seq<Timed>, n: nat): Breaker
    requires n <= |trace|
  {
    if n == 0 then FRESH else Next(c, Run(c, trace, n - 1), trace[n - 1])
  }

  /** Event n starts an operation. */
  predicate Starts(c: Config, trace: seq<Timed>, n: nat)
    requires n < |trace|
  {
    trace[n].event.Begin? && Looked(Run(c, trace, n), trace[n].now).mode != Open
  }

  /** Operations begun and not ended; an operation ends once, in any order. */
  function InFlight(c: Config, trace: seq<Timed>, n: nat): int
    requires n <= |trace|
  {
    if n == 0 then 0
    else InFlight(c, trace, n - 1)
         + (if Starts(c, trace, n - 1) then 1 else if trace[n - 1].event.Succeed? || trace[n - 1].event.Fail?
           then -1 else 0)
  }

  ghost predicate Plausible(c: Config, trace: seq<Timed>) {
    && (forall n :: 0 <= n <= |trace| ==> InFlight(c, trace, n) >= 0)
    && (forall i, j :: 0 <= i < j < |trace| ==> trace[i].now <= trace[j].now)
  }

  /** Event n opens the breaker, or opens it again. */
  predicate Opens(c: Config, trace: seq<Timed>, n: nat)
    requires n < |trace|
  {
    || trace[n].event.ForceOpen?
    || (Run(c, trace, n).mode != Open && Run(c, trace, n + 1).mode == Open)
  }

  function LastOpening(c: Config, trace: seq<Timed>, n: nat): Option<int>
    requires n <= |trace|
  {
    if n == 0 then None
    else if Opens(c, trace, n - 1) then Some(trace[n - 1].now)
    else LastOpening(c, trace, n - 1)
  }

  /** Event n - 1 sets the counts to zero: a reset, a closing, or the step from open to half-open. */
  predicate Zeroed(c: Config, trace: seq<Timed>, n: nat)
    requires 0 < n <= |trace|
  {
    var before, after := Run(c, trace, n - 1).mode, Run(c, trace, n).mode;
    || trace[n - 1].event.Reset? || trace[n - 1].event.ForceClosed?
    || (after == Closed && before != Closed) || (after == HalfOpen && before != HalfOpen)
  }

  /** How many of the first n events are e, since the counts were last set to zero. */
  function SinceZeroed(c: Config, trace: seq<Timed>, n: nat, e: Event): int
    requires n <= |trace|
  {
    if n == 0 || Zeroed(c, trace, n) then 0
    else SinceZeroed(c, trace, n - 1, e) + if trace[n - 1].event == e then 1 else 0
  }

  ghost predicate Inv(c: Config, b: Breaker, lastOpening: Option<int>) {
    && (b.mode == Closed ==> b.nextAttempt == None)
    && (b.mode == Open ==> lastOpening.Some? && b.nextAttempt == Some(lastOpening.value + c.resetTimeout))
    && (b.mode == HalfOpen ==> b.failures == 0 && b.successes == 0)
  }

  /** Open means: until the last opening time plus resetTimeout. Half-open means: nothing counted yet. */
  lemma {:induction false} EveryRunKeeps(c: Config, trace: seq<Timed>, n: nat)
    requires n <= |trace|
    ensures Inv(c, Run(c, trace, n), LastOpening(c, trace, n))
  {
    if n == 0 {
    } else {
      EveryRunKeeps(c, trace, n - 1);
    }
  }

  lemma {:induction false} ClosedBelowThreshold(c: Config, trace: seq<Timed>, n: nat)
    requires n <= |trace| && c.threshold >= 1
    ensures Run(c, trace, n).mode == Closed ==> Run(c, trace, n).failures < c.threshold
  {
    if n == 0 {
    } else {
      ClosedBelowThreshold(c, trace, n - 1);
    }
  }

  /** A closed breaker stays below its threshold in every run if and only if the threshold is at least 1. */
  lemma ClosedBelowThresholdIff(c: Config)
    ensures (forall trace: seq<Timed>, n: nat :: n <= |trace| && Run(c, trace, n).mode == Closed
                ==> Run(c, trace, n).failures < c.threshold)
        <==> c.threshold >= 1
  {
    if c.threshold >= 1 {
      forall trace: seq<Timed>, n: nat | n <= |trace| && Run(c, trace, n).mode == Closed
        ensures Run(c, trace, n).failures < c.threshold
      {
        ClosedBelowThreshold(c, trace, n);
      }
    } else {
      assert Run(c, [], 0) == FRESH;
    }
  }

  /** The counts are the counted failures and the successes since the breaker was last closed or half-opened: opening
      keeps them, and no success lowers the failures. */
  lemma {:induction false} CountsAre(c: Config, trace: seq<Timed>, n: nat)
    requires n <= |trace|
    ensures var b := Run(c, trace, n);
      b.failures == SinceZeroed(c, trace, n, Fail(true)) && b.successes == SinceZeroed(c, trace, n, Succeed)
  {
    if n == 0 {
    } else {
      CountsAre(c, trace, n - 1);
      EveryRunKeeps(c, trace, n - 1);
    }
  }

  /** When the last of the first n events that is e happened, if one has since the last reset. */
  function LastSinceReset(trace: seq<Timed>, n: nat, e: Event): Option<int>
    requires n <= |trace|
  {
    if n == 0 || trace[n - 1].event.Reset? then None
    else if trace[n - 1].event == e then Some(trace[n - 1].now)
    else LastSinceReset(trace, n - 1, e)
  }

  function StartsSinceReset(c: Config, trace: seq<Timed>, n: nat): int
    requires n <= |trace|
  {
    if n == 0 || trace[n - 1].event.Reset? then 0
    else StartsSinceReset(c, trace, n - 1) + if Starts(c, trace, n - 1) then 1 else 0
  }

  /** What the statistics say: the operations started, and the times of the last success and of the last counted
      failure, since the last reset. */
  lemma {:induction false} StatisticsAre(c: Config, trace: seq<Timed>, n: nat)
    requires n <= |trace|
    ensures var b := Run(c, trace, n);
      && b.totalRequests == StartsSinceReset(c, trace, n)
      && b.lastSuccess == LastSinceReset(trace, n, Succeed)
      && b.lastFailure == LastSinceReset(trace, n, Fail(true))
  {
    if n == 0 {
    } else {
      StatisticsAre(c, trace, n - 1);
    }
  }

  /** A look or a start finds an open breaker half-open if and only if the last opening is a resetTimeout ago, and
      nothing else moves it there. */
  lemma HalfOpensIff(c: Config, trace: seq<Timed>, n: nat)
    requires n < |trace| && Run(c, trace, n).mode == Open
    ensures LastOpening(c, trace, n).Some?
    ensures Run(c, trace, n + 1).mode == HalfOpen
        <==> (trace[n].event.Look? || trace[n].event.Begin?)
             && trace[n].now >= LastOpening(c, trace, n).value + c.resetTimeout
    ensures Starts(c, trace, n)
        <==> trace[n].event.Begin? && trace[n].now >= LastOpening(c, trace, n).value + c.resetTimeout
  {
    EveryRunKeeps(c, trace, n);
  }

  /** A closed breaker opens by itself exactly at the counted failure that reaches the threshold. */
  lemma OpensAtThreshold(c: Config, trace: seq<Timed>, n: nat)
    requires n < |trace| && Run(c, trace, n).mode == Closed && !trace[n].event.ForceOpen?
    ensures Run(c, trace, n + 1).mode == Open
        <==> trace[n].event == Fail(true) && SinceZeroed(c, trace, n, Fail(true)) + 1 >= c.threshold
  {
    CountsAre(c, trace, n);
  }

  /** Without reset and force, one event changes the mode along these edges only. */
  lemma OnlyTheseEdges(c: Config, trace: seq<Timed>, n: nat)
    requires n < |trace| && !trace[n].event.Reset? && !trace[n].event.ForceOpen? && !trace[n].event.ForceClosed?
    ensures var from, to := Run(c, trace, n).mode, Run(c, trace, n + 1).mode;
      && (from == Closed ==> to == Closed || to == Open)
      && (from == Open ==> to == Open || (to == HalfOpen && (trace[n].event.Look? || trace[n].event.Begin?)))
      && (from == HalfOpen ==>
            to == if trace[n].event.Succeed? then Closed else if trace[n].event == Fail(true) then Open else HalfOpen)
  {
  }

  /** Since event i the breaker has either been open since i or later, or a full resetTimeout has passed. */
  ghost predicate Guarded(c: Config, trace: seq<Timed>, i: nat, n: nat)
    requires i < n <= |trace|
  {
    || (Run(c, trace, n).mode == Open && LastOpening(c, trace, n).Some?
      && LastOpening(c, trace, n).value >= trace[i].now)
    || trace[n - 1].now >= trace[i].now + c.resetTimeout
  }

  lemma {:induction false} StaysGuarded(c: Config, trace: seq<Timed>, i: nat, n: nat)
    requires i < n <= |trace| && Plausible(c, trace) && Opens(c, trace, i)
    requires forall k :: i < k < n ==> !trace[k].event.Reset? && !trace[k].event.ForceClosed?
    ensures Guarded(c, trace, i, n)
  {
    if n > i + 1 {
      StaysGuarded(c, trace, i, n - 1);
      EveryRunKeeps(c, trace, n - 1);
      assert trace[n - 2].now <= trace[n - 1].now;
      assert trace[i].now <= trace[n - 1].now;
    }
  }

  /** Fail fast: after an opening no operation starts for resetTimeout, unless the breaker is reset or forced closed,
      whatever operations already in flight end meanwhile. */
  lemma NoStartWhileOpen(c: Config, trace: seq<Timed>, i: nat, j: nat)
    requires i < j < |trace| && Plausible(c, trace) && Opens(c, trace, i) && Starts(c, trace, j)
    requires forall k :: i < k < j ==> !trace[k].event.Reset? && !trace[k].event.ForceClosed?
    ensures trace[j].now >= trace[i].now + c.resetTimeout
  {
    StaysGuarded(c, trace, i, j);
    EveryRunKeeps(c, trace, j);
    assert trace[j - 1].now <= trace[j].now;
  }

  /** A half-open breaker starts every operation it is asked for, until one of those in flight ends. */
  lemma {:induction false} HalfOpenStartsAll(c: Config, trace: seq<Timed>, n: nat, m: nat)
    requires n <= m <= |trace| && Run(c, trace, n).mode == HalfOpen
    requires forall i :: n <= i < m ==> trace[i].event.Begin?
    ensures forall i :: n <= i < m ==> Starts(c, trace, i)
    ensures Run(c, trace, m).mode == HalfOpen && InFlight(c, trace, m) == InFlight(c, trace, n) + m - n
  {
    if n < m {
      HalfOpenStartsAll(c, trace, n, m - 1);
    }
  }

  /** Opened, looked at when its time has come, and asked for k operations. */
  function Probing(c: Config, k: nat): (trace: seq<Timed>)
    ensures |trace| == k + 2 && forall i :: 2 <= i < k + 2 ==> trace[i].event.Begin?
  {
    var later := if c.resetTimeout > 0 then c.resetTimeout else 0;
    [Timed(ForceOpen, 0), Timed(Look, later)] + seq(k, _ => Timed(Begin, later))
  }

  /** So there is no bound on the operations in flight in a half-open breaker, whatever its configuration. */
  lemma HalfOpenAdmitsAny(c: Config, k: nat)
    ensures var trace := Probing(c, k);
      Plausible(c, trace) && Run(c, trace, k + 2).mode == HalfOpen && InFlight(c, trace, k + 2) == k
  {
    var trace := Probing(c, k);
    ProbingIsHalfOpen(c, k);
    forall n | 0 <= n <= k + 2 ensures InFlight(c, trace, n) >= 0 {
      if n >= 2 {
        HalfOpenStartsAll(c, trace, 2, n);
      }
    }
    HalfOpenStartsAll(c, trace, 2, k + 2);
  }

  lemma ProbingIsHalfOpen(c: Config, k: nat)
    ensures var trace := Probing(c, k);
      Run(c, trace, 2).mode == HalfOpen && InFlight(c, trace, 0) == 0 && InFlight(c, trace, 1) == 0
        && InFlight(c, trace, 2) == 0
  {
    var trace := Probing(c, k);
    assert trace[0] == Timed(ForceOpen, 0) && trace[1].event == Look;
    assert Run(c, trace, 0) == FRESH;
    assert Run(c, trace, 1) == ToOpen(c, FRESH, 0);
    assert !Starts(c, trace, 0) && InFlight(c, trace, 0) == 0;
    assert !Starts(c, trace, 1) && InFlight(c, trace, 1) == 0;
    assert Run(c, trace, 2) == Looked(Run(c, trace, 1), trace[1].now);
  }
}
