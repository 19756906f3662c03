/** The ReadWriteLock of packages/concurrency/src/index.ts.

    Every method of the lock runs without an await between its first and last change of state, so a run is a sequence
    of atomic acquire and release calls in any order. Each acquire carries a request id; a waiting request holds the
    lock from the moment its promise is resolved. */
module ReadWriteLock {
  import opened Common

  type Id = nat

  datatype Lock = Lock(readers: int, writer: bool, readQueue: seq<Id>, writeQueue: seq<Id>)

  // ---------------------------------------------------------------- the four calls as functions

  function AcquireRead(l: Lock, id: Id): (Lock, bool) {
    if !l.writer && l.writeQueue == [] then (l.(readers := l.readers + 1), true)
    else (l.(readQueue := l.readQueue + [id]), false)
  }

  function AcquireWrite(l: Lock, id: Id): (Lock, bool) {
    if !l.writer && l.readers == 0 then (l.(writer := true), true)
    else (l.(writeQueue := l.writeQueue + [id]), false)
  }

  datatype Woken = Nobody | Writer(id: Id) | Readers(ids: seq<Id>)

  function ReleaseRead(l: Lock): (Lock, Woken) {
    if l.readers - 1 == 0 && l.writeQueue != []
    then (l.(readers := 0, writer := true, writeQueue := l.writeQueue[1..]), Writer(l.writeQueue[0]))
    else (l.(readers := l.readers - 1), Nobody)
  }

  function ReleaseWrite(l: Lock): (Lock, Woken) {
    if l.writeQueue != [] then (l.(writer := true, writeQueue := l.writeQueue[1..]), Writer(l.writeQueue[0]))
    else if l.readQueue != []
    then (l.(writer := false, readers := l.readers + |l.readQueue|, readQueue := []), Readers(l.readQueue))
    else (l.(writer := false), Nobody)
  }

  // ---------------------------------------------------------------- the class

  class ReadWriteLock {
    var readers: int
    var writer: bool
    var readQueue: seq<Id>
    var writeQueue: seq<Id>

    ghost function Abs(): Lock
      reads this
    {
      Lock(readers, writer, readQueue, writeQueue)
    }

    constructor ()
      ensures Abs() == Lock(0, false, [], [])
    {
      readers, writer, readQueue, writeQueue := 0, false, [], [];
    }

    method ReadAcquire(id: Id) returns (granted: bool)
      modifies this
      ensures (Abs(), granted) == AcquireRead(old(Abs()), id)
    {
      if !writer && |writeQueue| == 0 {
        readers := readers + 1;
        return true;
      }
      readQueue := readQueue + [id];
      return false;
    }

    method ReadRelease() returns (woken: Woken)
      modifies this
      ensures (Abs(), woken) == ReleaseRead(old(Abs()))
    {
      readers := readers - 1;
      woken := Nobody;
      if readers == 0 && |writeQueue| > 0 {
        woken := Writer(writeQueue[0]);
        writeQueue := writeQueue[1..];
        writer := true;
      }
    }

    method WriteAcquire(id: Id) returns (granted: bool)
      modifies this
      ensures (Abs(), granted) == AcquireWrite(old(Abs()), id)
    {
      if !writer && readers == 0 {
        writer := true;
        return true;
      }
      writeQueue := writeQueue + [id];
      return false;
    }

    method WriteRelease() returns (woken: Woken)
      modifies this
      ensures (Abs(), woken) == ReleaseWrite(old(Abs()))
    {
      writer := false;
      woken := Nobody;
      if |writeQueue| > 0 {
        woken := Writer(writeQueue[0]);
        writeQueue := writeQueue[1..];
        writer := true;
      } else if |readQueue| > 0 {
        var resumed: seq<Id> := [];
        assert resumed + readQueue == old(readQueue);
        while |readQueue| > 0
          invariant resumed + readQueue == old(readQueue)
          invariant readers == old(readers) + |resumed|
          invariant writer == false && writeQueue == old(writeQueue)
          decreases |readQueue|
        {
          var reader := readQueue[0];
          assert readQueue == [reader] + readQueue[1..];
          readQueue := readQueue[1..];
          readers := readers + 1;
          resumed := resumed + [reader];
        }
        assert resumed == old(readQueue);
        woken := Readers(resumed);
      }
    }
  }

  // ---------------------------------------------------------------- the lock and its clients

  /** The lock, who holds it, and the order in which writers and readers asked for it and got it. */
  datatype System = System(lock: Lock, reading: set<Id>, writing: Option<Id>, asked: seq<Id>, served: seq<Id>,
                           readersAsked: seq<Id>, readersServed: seq<Id>)

  datatype Step = ReadAcquire(id: Id) | ReadRelease(id: Id) | WriteAcquire(id: Id) | WriteRelease(id: Id)

  const INITIAL := System(Lock(0, false, [], []), {}, None, [], [], [], [])

  ghost predicate Waiting(s: System, id: Id) {
    id in s.lock.readQueue || id in s.lock.writeQueue
  }

  ghost predicate Holding(s: System, id: Id) {
    id in s.reading || s.writing == Some(id)
  }

  /** Clients acquire with a new request and release only what they hold. */
  ghost predicate Enabled(s: System, step: Step) {
    match step
    case ReadAcquire(id) => !Waiting(s, id) && !Holding(s, id)
    case WriteAcquire(id) => !Waiting(s, id) && !Holding(s, id)
    case ReadRelease(id) => id in s.reading
    case WriteRelease(id) => s.writing == Some(id)
  }

  function Wake(s: System, woken: Woken): System {
    match woken
    case Nobody => s
    case Writer(id) => s.(writing := Some(id), served := s.served + [id])
    case Readers(ids) => s.(reading := s.reading + Elements(ids), readersServed := s.readersServed + ids)
  }

  function Next(s: System, step: Step): System {
    match step
    case ReadAcquire(id) =>
      var (l, granted) := AcquireRead(s.lock, id);
      var asking := s.(lock := l, readersAsked := s.readersAsked + [id]);
      if granted then asking.(reading := s.reading + {id}, readersServed := s.readersServed + [id]) else asking
    case WriteAcquire(id) =>
      var (l, granted) := AcquireWrite(s.lock, id);
      var asking := s.(lock := l, asked := s.asked + [id]);
      if granted then Wake(asking, Writer(id)) else asking
    case ReadRelease(id) =>
      var (l, woken) := ReleaseRead(s.lock);
      Wake(s.(lock := l, reading := s.reading - {id}), woken)
    case WriteRelease(id) =>
      var (l, woken) := ReleaseWrite(s.lock);
      Wake(s.(lock := l, writing := None), woken)
  }

  ghost predicate Exclusive(s: System) {
    && s.lock.readers == |s.reading| && (s.lock.writer <==> s.writing.Some?)
    && (s.writing.Some? ==> s.reading == {})
  }

  /** A waiting reader waits for a writer, and a waiting writer for a holder. */
  ghost predicate NobodyStranded(s: System) {
    && (s.lock.readQueue != [] ==> s.writing.Some? || s.lock.writeQueue != [])
    && (s.lock.writeQueue != [] ==> s.writing.Some? || s.reading != {})
  }

  ghost predicate FirstComeFirstServed(s: System) {
    s.asked == s.served + s.lock.writeQueue && s.readersAsked == s.readersServed + s.lock.readQueue
  }

  ghost predicate Separate(s: System) {
    && NoDuplicates(s.lock.readQueue) && NoDuplicates(s.lock.writeQueue)
    && (forall id :: id in s.lock.readQueue ==> id !in s.lock.writeQueue)
    && (forall id :: Waiting(s, id) ==> !Holding(s, id))
  }

  ghost predicate Inv(s: System) {
    Exclusive(s) && NobodyStranded(s) && FirstComeFirstServed(s) && Separate(s)
  }

  lemma NextExclusive(s: System, step: Step)
    requires Inv(s) && Enabled(s, step)
    ensures Exclusive(Next(s, step))
  {
    DistinctSize(s.lock.readQueue);
    assert s.reading == {} <==> |s.reading| == 0;
    match step
    case ReadAcquire(id) => assert |s.reading + {id}| == |s.reading| + 1;
    case ReadRelease(id) => assert |s.reading - {id}| == |s.reading| - 1;
    case WriteAcquire(id) =>
    case WriteRelease(id) => assert s.reading + Elements(s.lock.readQueue) == Elements(s.lock.readQueue);
  }

  lemma AcquireSeparate(s: System, step: Step)
    requires Inv(s) && Enabled(s, step) && (step.ReadAcquire? || step.WriteAcquire?)
    ensures Separate(Next(s, step))
  {
    var s' := Next(s, step);
    forall id | Waiting(s', id) ensures !Holding(s', id) {
      if id != step.id {
        assert Waiting(s, id);
      }
    }
  }

  lemma ReleaseSeparate(s: System, step: Step)
    requires Inv(s) && Enabled(s, step) && (step.ReadRelease? || step.WriteRelease?)
    ensures Separate(Next(s, step))
  {
    var s' := Next(s, step);
    forall id | Waiting(s', id) ensures !Holding(s', id) {
      assert Waiting(s, id);
      if id in s'.lock.readQueue && s.lock.writeQueue != [] {
        assert id != s.lock.writeQueue[0];
      }
    }
  }

  lemma NextSeparate(s: System, step: Step)
    requires Inv(s) && Enabled(s, step)
    ensures Separate(Next(s, step))
  {
    if step.ReadAcquire? || step.WriteAcquire? {
      AcquireSeparate(s, step);
    } else {
      ReleaseSeparate(s, step);
    }
  }

  lemma NextServes(s: System, step: Step)
    requires Inv(s) && Enabled(s, step)
    ensures FirstComeFirstServed(Next(s, step)) && NobodyStranded(Next(s, step))
  {
    NextServesInOrder(s, step);
    assert s.reading == {} <==> |s.reading| == 0;
    if step.ReadRelease? {
      assert |s.reading - {step.id}| == |s.reading| - 1;
    }
  }

  lemma NextServesInOrder(s: System, step: Step)
    requires Inv(s) && Enabled(s, step)
    ensures FirstComeFirstServed(Next(s, step))
  {
    var q := s.lock.writeQueue;
    match step
    case WriteAcquire(id) =>
      assert s.served + (q + [id]) == s.asked + [id];
      assert s.lock.writeQueue == [] ==> s.served + [id] + [] == s.asked + [id];
    case _ =>
      assert q != [] ==> s.served + [q[0]] + q[1..] == s.served + q;
  }

  function Run(steps: seq<Step>): System {
    if steps == [] then INITIAL else Next(Run(steps[..|steps| - 1]), steps[|steps| - 1])
  }

  ghost predicate Matched(steps: seq<Step>) {
    steps != [] ==>
      Matched(steps[..|steps| - 1]) && Enabled(Run(steps[..|steps| - 1]), steps[|steps| - 1])
  }

  /** In every run of matched calls: a writer excludes readers and other writers, nobody waits without cause, and
      writers get the lock in the order they asked for it. */
  lemma {:induction false} EveryRunIsSafe(steps: seq<Step>)
    requires Matched(steps)
    ensures Inv(Run(steps))
  {
    if steps == [] {
    } else {
      var front := steps[..|steps| - 1];
      EveryRunIsSafe(front);
      NextExclusive(Run(front), steps[|steps| - 1]);
      NextSeparate(Run(front), steps[|steps| - 1]);
      NextServes(Run(front), steps[|steps| - 1]);
    }
  }

  /** A step that lets a reader in starts without a waiting writer. */
  lemma NoReaderOvertakesWriter(steps: seq<Step>, step: Step, id: Id)
    requires Matched(steps + [step])
    requires id in Run(steps + [step]).reading && id !in Run(steps).reading
    ensures Run(steps).lock.writeQueue == [] && Run(steps + [step]).lock.writeQueue == []
  {
    assert (steps + [step])[..|steps|] == steps;
    EveryRunIsSafe(steps);
  }

  // ---------------------------------------------------------------- when a waiting writer is served

  predicate IsRelease(step: Step) {
    step.ReadRelease? || step.WriteRelease?
  }

  function Releases(steps: seq<Step>): nat {
    if steps == [] then 0 else Releases(steps[..|steps| - 1]) + if IsRelease(steps[|steps| - 1]) then 1 else 0
  }

  /** How many releases the writer at position k of the queue still waits for: one for each writer ahead of it, and
      one for each holder. */
  function Distance(s: System, k: nat): nat {
    k + if s.writing.Some? then 1 else |s.reading|
  }

  /** The writer that was the pos-th to ask has the lock or has had it if d is 0, and else waits for d releases. */
  predicate WaitsFor(s: System, pos: nat, d: nat) {
    if d == 0 then pos < |s.served|
    else 0 <= pos - |s.served| < |s.lock.writeQueue| && Distance(s, pos - |s.served|) == d
  }

  function OneLess(d: nat, step: Step): nat {
    if IsRelease(step) && d > 0 then d - 1 else d
  }

  /** A release brings a waiting writer one nearer, to the lock itself at the last; an acquire changes nothing. */
  lemma WriterAdvances(s: System, step: Step, pos: nat, d: nat)
    requires Inv(s) && Enabled(s, step) && WaitsFor(s, pos, d)
    ensures WaitsFor(Next(s, step), pos, OneLess(d, step))
  {
    assert s.reading == {} <==> |s.reading| == 0;
    if step.ReadRelease? {
      assert |s.reading - {step.id}| == |s.reading| - 1;
    }
  }

  lemma StartsWaiting(s: System, k: nat)
    requires Inv(s) && k < |s.lock.writeQueue|
    ensures WaitsFor(s, |s.served| + k, Distance(s, k))
  {
    assert s.reading == {} <==> |s.reading| == 0;
  }

  /** How many releases are left to wait for. */
  function Remaining(d: nat, more: seq<Step>): nat {
    if Releases(more) >= d then 0 else d - Releases(more)
  }

  lemma {:induction false} WriterAfter(steps: seq<Step>, more: seq<Step>, pos: nat, d: nat)
    requires Matched(steps + more) && WaitsFor(Run(steps), pos, d)
    ensures WaitsFor(Run(steps + more), pos, Remaining(d, more))
    ensures Run(steps).asked <= Run(steps + more).asked
  {
    if more == [] {
      assert steps + more == steps;
    } else {
      var front, step := more[..|more| - 1], more[|more| - 1];
      assert (steps + more)[..|steps + more| - 1] == steps + front;
      WriterAfter(steps, front, pos, d);
      EveryRunIsSafe(steps + front);
      WriterAdvances(Run(steps + front), step, pos, Remaining(d, front));
      HistoryGrows(Run(steps + front), step);
    }
  }

  lemma HistoryGrows(s: System, step: Step)
    ensures s.asked <= Next(s, step).asked
  {
  }

  lemma {:induction false} MatchedBefore(steps: seq<Step>, more: seq<Step>)
    requires Matched(steps + more)
    ensures Matched(steps)
  {
    if more == [] {
      assert steps + more == steps;
    } else {
      assert (steps + more)[..|steps + more| - 1] == steps + more[..|more| - 1];
      MatchedBefore(steps, more[..|more| - 1]);
    }
  }

  lemma SamePlace(s: System, s': System, k: nat)
    requires FirstComeFirstServed(s) && FirstComeFirstServed(s') && s.asked <= s'.asked
    requires k < |s.lock.writeQueue| && |s.served| + k < |s'.served|
    ensures s'.served[|s.served| + k] == s.lock.writeQueue[k]
  {
    var pos := |s.served| + k;
    assert s.asked[pos] == s.lock.writeQueue[k] && s'.asked[pos] == s'.served[pos];
  }

  /** A waiting writer gets the lock exactly at the release its distance says, whatever is acquired in the meantime:
      after any continuation it has been served, in its turn, if and only if that many releases were made. */
  lemma WaitingWriterServedIff(steps: seq<Step>, more: seq<Step>, k: nat)
    requires Matched(steps + more) && k < |Run(steps).lock.writeQueue|
    ensures var s, s' := Run(steps), Run(steps + more);
      && (Releases(more) >= Distance(s, k) <==> |s.served| + k < |s'.served|)
      && (|s.served| + k < |s'.served| ==> s'.served[|s.served| + k] == s.lock.writeQueue[k])
  {
    MatchedBefore(steps, more);
    EveryRunIsSafe(steps);
    EveryRunIsSafe(steps + more);
    var s, s' := Run(steps), Run(steps + more);
    StartsWaiting(s, k);
    WriterAfter(steps, more, |s.served| + k, Distance(s, k));
    if |s.served| + k < |s'.served| {
      SamePlace(s, s', k);
    }
  }
}
