/** Semaphore, with runAll, of packages/concurrency/src/index.ts.

    A run is a sequence of atomic steps: the workers of one runAll call, any number of other clients of the same
    semaphore, and functions that end, well or badly, in any order. */
module Semaphore {
  import opened Common
  import opened Integers

  /** Who asks for a slot: a worker of runAll, or somebody else. */
  datatype Client = Worker(w: nat) | Other(id: nat)

  datatype Sem = Sem(current: int, max: int, queue: seq<Client>)

  function AcquireSlot(s: Sem, c: Client): (Sem, bool) {
    if s.current < s.max then (s.(current := s.current + 1), true) else (s.(queue := s.queue + [c]), false)
  }

  function ReleaseSlot(s: Sem): (Sem, Option<Client>) {
    var freed := if s.current > 0 then s.current - 1 else s.current;
    if s.queue != [] then (s.(current := freed + 1, queue := s.queue[1..]), Some(s.queue[0]))
    else (s.(current := freed), None)
  }

  class Semaphore {
    var current: int
    const max: int
    var queue: seq<Client>

    ghost function Abs(): Sem
      reads this
    {
      Sem(current, max, queue)
    }

    constructor (max: int)
      requires max > 0
      ensures Abs() == Sem(0, max, [])
    {
      this.max := max;
      current, queue := 0, [];
    }

    method Acquire(c: Client) returns (granted: bool)
      modifies this
      ensures (Abs(), granted) == AcquireSlot(old(Abs()), c)
    {
      if current < max {
        current := current + 1;
        return true;
      }
      queue := queue + [c];
      return false;
    }

    method Release() returns (woken: Option<Client>)
      modifies this
      ensures (Abs(), woken) == ReleaseSlot(old(Abs()))
    {
      if current > 0 {
        current := current - 1;
      }
      woken := None;
      if |queue| > 0 {
        woken := Some(queue[0]);
        queue := queue[1..];
        current := current + 1;
      }
    }
  }

  /** new Semaphore(max), which throws unless max is positive. */
  method NewSemaphore(max: int) returns (s: Option<Semaphore>)
    ensures s.Some? <==> max > 0
    ensures s.Some? ==> fresh(s.value) && s.value.Abs() == Sem(0, max, [])
  {
    if max <= 0 {
      return None;
    }
    var sem := new Semaphore(max);
    return Some(sem);
  }

  // ---------------------------------------------------------------- runAll

  datatype Phase = Waiting(i: nat) | Granted(i: nat) | Running(i: nat) | Finished

  /** The semaphore with its holders, and the state of one runAll call: the shared index, its workers, the results
      stored, the functions that failed, and those called so far. */
  datatype System<+R> = System(sem: Sem, holders: set<Client>, launched: bool, index: nat, workers: map<nat, Phase>,
                               results: map<nat, R>, failed: set<nat>, called: seq<nat>)

  datatype Step =
    | Launch
    | Call(w: nat)
    | Return(w: nat)
    | Throw(w: nat)
    | OtherAcquire(id: nat)
    | OtherRelease(id: nat)

  function Initial<R>(max: int): System<R> {
    System(Sem(0, max, []), {}, false, 0, map[], map[], {}, [])
  }

  /** Top of the worker loop: claim the next index and ask for a slot, or stop. n is the number of functions. */
  function Claim<R>(s: System<R>, n: nat, w: nat): System<R> {
    if s.index < n then
      var (sem, granted) := AcquireSlot(s.sem, Worker(w));
      s.(sem := sem, index := s.index + 1,
         holders := if granted then s.holders + {Worker(w)} else s.holders,
         workers := s.workers[w := if granted then Granted(s.index) else Waiting(s.index)])
    else s.(workers := s.workers[w := Finished])
  }

  function LaunchAll<R>(s: System<R>, n: nat, k: nat): System<R> {
    if k == 0 then s else Claim(LaunchAll(s, n, k - 1), n, k - 1)
  }

  function NumWorkers(max: int, n: nat): nat {
    if max < 0 then 0 else if max < n then max else n
  }

  /** release() by a holder: the head of the queue, if any, takes the slot over. */
  function Free<R>(s: System<R>, c: Client): System<R> {
    var (sem, woken) := ReleaseSlot(s.sem);
    var freed := s.(sem := sem, holders := s.holders - {c});
    match woken
    case None => freed
    case Some(next) =>
      freed.(holders := freed.holders + {next},
             workers := if next.Worker? && next.w in s.workers && s.workers[next.w].Waiting?
                        then s.workers[next.w := Granted(s.workers[next.w].i)] else s.workers)
  }

  ghost predicate Enabled<R>(s: System<R>, n: nat, step: Step) {
    match step
    case Launch => !s.launched
    case Call(w) => w in s.workers && s.workers[w].Granted?
    case Return(w) => w in s.workers && s.workers[w].Running? && s.workers[w].i < n
    case Throw(w) => w in s.workers && s.workers[w].Running?
    case OtherAcquire(id) => Other(id) !in s.holders && Other(id) !in s.sem.queue
    case OtherRelease(id) => Other(id) in s.holders
  }

  /** f(i) is what fns[i]() resolves to. */
  function Next<R>(f: nat -> R, n: nat, s: System<R>, step: Step): System<R>
    requires Enabled(s, n, step)
  {
    match step
    case Launch => LaunchAll(s.(launched := true), n, NumWorkers(s.sem.max, n))
    case Call(w) => s.(workers := s.workers[w := Running(s.workers[w].i)], called := s.called + [s.workers[w].i])
    case Return(w) =>
      var i := s.workers[w].i;
      Claim(Free(s.(results := s.results[i := f(i)], workers := s.workers - {w}), Worker(w)), n, w)
    case Throw(w) =>
      Free(s.(failed := s.failed + {s.workers[w].i}, workers := s.workers[w := Finished]), Worker(w))
    case OtherAcquire(id) =>
      var (sem, granted) := AcquireSlot(s.sem, Other(id));
      s.(sem := sem, holders := if granted then s.holders + {Other(id)} else s.holders)
    case OtherRelease(id) => Free(s, Other(id))
  }

  // ---------------------------------------------------------------- what every step keeps

  /** As many slots are taken as there are holders, never more than max, and somebody waits only if all are taken. */
  ghost predicate Slots<R>(s: System<R>) {
    && s.sem.max > 0 && s.sem.current == |s.holders| <= s.sem.max
    && (s.sem.queue != [] ==> s.sem.current == s.sem.max)
    && NoDuplicates(s.sem.queue) && (forall c :: c in s.sem.queue ==> c !in s.holders)
  }

  /** A worker of runAll holds a slot or waits for one exactly as its phase says; `loose`, if any, is about to
      give its slot back. */
  ghost predicate Roles<R>(s: System<R>, loose: Option<Client>) {
    forall w: nat ::
      && (Worker(w) in s.sem.queue <==> w in s.workers && s.workers[w].Waiting?)
      && (Some(Worker(w)) != loose ==> (Worker(w) in s.holders
        <==> w in s.workers && (s.workers[w].Granted? || s.workers[w].Running?)))
      && (Some(Worker(w)) == loose ==> w !in s.workers || s.workers[w].Finished?)
  }

  ghost predicate Has<R>(s: System<R>, w: nat, i: nat) {
    w in s.workers && !s.workers[w].Finished? && s.workers[w].i == i
  }

  /** Every index claimed so far is done, failed, or in the hands of one worker. */
  ghost predicate Tasks<R(!new)>(f: nat -> R, n: nat, s: System<R>) {
    && s.index <= n
    && (forall i :: i in s.results ==> i < s.index && i !in s.failed && s.results[i] == f(i))
    && (forall i :: i in s.failed ==> i < s.index)
    && (forall w: nat, i: nat :: Has(s, w, i) ==> i < s.index && i !in s.results && i !in s.failed)
    && (forall v: nat, w: nat, i: nat :: Has(s, v, i) && Has(s, w, i) ==> v == w)
    && (forall i: nat :: i < s.index ==> i in s.results || i in s.failed || exists w :: Has(s, w, i))
  }

  ghost predicate Runs<R>(s: System<R>, w: nat, i: nat) {
    w in s.workers && s.workers[w] == Running(i)
  }

  /** No function is called twice, and those called have ended or are running. */
  ghost predicate Calls<R>(s: System<R>) {
    && NoDuplicates(s.called)
    && (forall i: nat :: i in s.called ==> i in s.results || i in s.failed || exists w :: Runs(s, w, i))
    && (forall i: nat :: i in s.results || i in s.failed ==> i in s.called)
    && (forall w: nat, i: nat :: Runs(s, w, i) ==> i in s.called)
    && (forall w: nat, i: nat :: Has(s, w, i) && !Runs(s, w, i) ==> i !in s.called)
  }

  /** Without failures a worker stops only when all functions have been claimed. */
  ghost predicate Stops<R>(n: nat, s: System<R>) {
    && (s.failed == {} ==> forall w :: w in s.workers && s.workers[w].Finished? ==> s.index == n)
    && (!s.launched ==> s.workers == map[] && s.index == 0)
    && (s.launched && n > 0 ==> s.workers != map[])
  }

  ghost predicate Core<R(!new)>(f: nat -> R, n: nat, s: System<R>) {
    Slots(s) && Roles(s, None) && Tasks(f, n, s) && Calls(s)
  }

  ghost predicate Inv<R(!new)>(f: nat -> R, n: nat, s: System<R>) {
    Core(f, n, s) && Stops(n, s)
  }

  lemma FreeSlots<R>(s: System<R>, c: Client)
    requires Slots(s) && c in s.holders
    ensures Slots(Free(s, c))
  {
    var q := s.sem.queue;
    assert |s.holders - {c}| == |s.holders| - 1;
    if q != [] {
      assert q[0] in q;
      assert forall d :: d in q[1..] ==> d in q && d != q[0];
      assert q[0] !in s.holders - {c};
    }
  }

  lemma FreeRoles<R>(s: System<R>, c: Client)
    requires Slots(s) && c in s.holders && Roles(s, Some(c))
    ensures Roles(Free(s, c), None)
  {
    var q := s.sem.queue;
    if q != [] {
      assert q == [q[0]] + q[1..];
      assert q[0] in q && q[0] != c;
      assert q[0] !in q[1..];
    }
  }

  /** s' differs from s in the semaphore, its holders, and which workers have been granted a slot. */
  ghost predicate SameWork<R>(s: System<R>, s': System<R>) {
    && s' == s.(sem := s'.sem, holders := s'.holders, workers := s'.workers)
    && s'.workers.Keys == s.workers.Keys
    && forall w :: w in s.workers ==>
         s'.workers[w] == s.workers[w] || (s.workers[w].Waiting? && s'.workers[w] == Granted(s.workers[w].i))
  }

  lemma FreeSameWork<R>(s: System<R>, c: Client)
    ensures SameWork(s, Free(s, c))
  {
  }

  lemma SameWorkTasks<R(!new)>(f: nat -> R, n: nat, s: System<R>, s': System<R>)
    requires SameWork(s, s') && Tasks(f, n, s)
    ensures Tasks(f, n, s')
  {
    assert forall w: nat, i: nat :: Has(s', w, i) <==> Has(s, w, i);
  }

  lemma SameWorkCalls<R(!new)>(n: nat, s: System<R>, s': System<R>)
    requires SameWork(s, s') && Calls(s)
    ensures Calls(s')
    ensures Stops(n, s) ==> Stops(n, s')
  {
    assert forall w: nat, i: nat :: Has(s', w, i) <==> Has(s, w, i);
    assert forall w: nat, i: nat :: Runs(s', w, i) <==> Runs(s, w, i);
    assert forall w :: w in s.workers ==> (s'.workers[w].Finished? <==> s.workers[w].Finished?);
    if s.workers != map[] {
      assert s.workers.Keys != {};
    }
  }

  lemma FreeKeeps<R(!new)>(f: nat -> R, n: nat, s: System<R>, c: Client)
    requires Slots(s) && c in s.holders && Roles(s, Some(c)) && Tasks(f, n, s) && Calls(s)
    ensures var s' := Free(s, c); Slots(s') && Roles(s', None) && Tasks(f, n, s') && Calls(s')
  {
    FreeSlots(s, c);
    FreeRoles(s, c);
    FreeSameWork(s, c);
    SameWorkTasks(f, n, s, Free(s, c));
    SameWorkCalls(n, s, Free(s, c));
  }

  /** Somebody without a slot asks for one. */
  lemma AskSlots<R>(s: System<R>, c: Client)
    requires Slots(s) && c !in s.holders && c !in s.sem.queue
    ensures var (sem, granted) := AcquireSlot(s.sem, c);
      Slots(s.(sem := sem, holders := if granted then s.holders + {c} else s.holders))
  {
    assert |s.holders + {c}| == |s.holders| + 1;
    assert forall d :: d in s.sem.queue + [c] <==> d in s.sem.queue || d == c;
  }

  lemma ClaimSlots<R>(s: System<R>, n: nat, w: nat)
    requires Slots(s) && Roles(s, None) && w !in s.workers
    ensures Slots(Claim(s, n, w))
  {
    AskSlots(s, Worker(w));
  }

  lemma ClaimRoles<R>(s: System<R>, n: nat, w: nat)
    requires Slots(s) && Roles(s, None) && w !in s.workers
    ensures Roles(Claim(s, n, w), None)
  {
    assert forall c :: c in s.sem.queue + [Worker(w)] <==> c in s.sem.queue || c == Worker(w);
  }

  lemma ClaimTasks<R(!new)>(f: nat -> R, n: nat, s: System<R>, w: nat)
    requires Tasks(f, n, s) && w !in s.workers
    ensures Tasks(f, n, Claim(s, n, w))
  {
    var s' := Claim(s, n, w);
    assert forall v: nat, i: nat :: v != w ==> (Has(s', v, i) <==> Has(s, v, i));
    if s.index < n {
      assert Has(s', w, s.index);
    }
    forall i: nat | i < s.index && i !in s.results && i !in s.failed ensures exists v :: Has(s', v, i) {
      var v :| Has(s, v, i);
      assert Has(s', v, i);
    }
  }

  lemma CalledBelow<R(!new)>(f: nat -> R, n: nat, s: System<R>, i: nat)
    requires Tasks(f, n, s) && Calls(s) && i in s.called
    ensures i < s.index
  {
    if i !in s.results && i !in s.failed {
      var w :| Runs(s, w, i);
      assert Has(s, w, i);
    }
  }

  /** The same calls, ended and running, and nothing new in hand that was called before. */
  lemma SameCalls<R(!new)>(s: System<R>, s': System<R>)
    requires Calls(s) && s'.called == s.called && s'.results == s.results && s'.failed == s.failed
    requires forall v: nat, i: nat :: Runs(s', v, i) <==> Runs(s, v, i)
    requires forall v: nat, i: nat :: Has(s', v, i) ==> Has(s, v, i) || i !in s.called
    ensures Calls(s')
  {
  }

  lemma ClaimCalls<R(!new)>(f: nat -> R, n: nat, s: System<R>, w: nat)
    requires Tasks(f, n, s) && Calls(s) && w !in s.workers
    ensures Calls(Claim(s, n, w))
  {
    if s.index in s.called {
      CalledBelow(f, n, s, s.index);
    }
    SameCalls(s, Claim(s, n, w));
  }

  lemma ClaimKeeps<R(!new)>(f: nat -> R, n: nat, s: System<R>, w: nat)
    requires Core(f, n, s) && w !in s.workers
    ensures Core(f, n, Claim(s, n, w))
  {
    ClaimSlots(s, n, w);
    ClaimRoles(s, n, w);
    ClaimTasks(f, n, s, w);
    ClaimCalls(f, n, s, w);
  }

  /** k workers have been launched, and each holds or awaits a slot. */
  ghost predicate LaunchedTo<R>(s: System<R>, k: nat) {
    && s.index == k && (forall w: nat :: w in s.workers <==> w < k)
    && (forall w :: w in s.workers ==> !s.workers[w].Finished?)
  }

  lemma LaunchOne<R>(s: System<R>, n: nat, k: nat)
    requires LaunchedTo(s, k) && k < n
    ensures LaunchedTo(Claim(s, n, k), k + 1) && Claim(s, n, k).launched == s.launched
  {
  }

  lemma {:induction false} LaunchKeeps<R(!new)>(f: nat -> R, n: nat, s: System<R>, k: nat)
    requires Core(f, n, s) && LaunchedTo(s, 0) && k <= n
    ensures Core(f, n, LaunchAll(s, n, k))
    ensures LaunchedTo(LaunchAll(s, n, k), k) && LaunchAll(s, n, k).launched == s.launched
    decreases k, 0
  {
    if k > 0 {
      LaunchMore(f, n, s, k - 1);
    }
  }

  lemma {:induction false} LaunchMore<R(!new)>(f: nat -> R, n: nat, s: System<R>, k: nat)
    requires Core(f, n, s) && LaunchedTo(s, 0) && k < n
    ensures Core(f, n, LaunchAll(s, n, k + 1))
    ensures LaunchedTo(LaunchAll(s, n, k + 1), k + 1) && LaunchAll(s, n, k + 1).launched == s.launched
    decreases k, 1
  {
    LaunchKeeps(f, n, s, k);
    var before := LaunchAll(s, n, k);
    assert LaunchAll(s, n, k + 1) == Claim(before, n, k);
    ClaimKeeps(f, n, before, k);
    LaunchOne(before, n, k);
  }

  lemma LaunchStep<R(!new)>(f: nat -> R, n: nat, s: System<R>)
    requires Inv(f, n, s) && !s.launched
    ensures Inv(f, n, Next(f, n, s, Launch))
  {
    var s0, k := s.(launched := true), NumWorkers(s.sem.max, n);
    assert forall w: nat, i: nat :: !Has(s0, w, i) && !Runs(s0, w, i) && !Has(s, w, i) && !Runs(s, w, i);
    LaunchKeeps(f, n, s0, k);
    if n > 0 {
      assert 0 in LaunchAll(s0, n, k).workers;
    }
  }

  lemma CallStep<R(!new)>(f: nat -> R, n: nat, s: System<R>, w: nat)
    requires Inv(f, n, s) && Enabled(s, n, Call(w))
    ensures Inv(f, n, Next(f, n, s, Call(w)))
  {
    var s', i0 := Next(f, n, s, Call(w)), s.workers[w].i;
    assert forall v: nat, i: nat :: Has(s', v, i) <==> Has(s, v, i);
    assert Has(s, w, i0) && !Runs(s, w, i0) && Runs(s', w, i0);
    assert forall v: nat, i: nat :: Runs(s, v, i) ==> Runs(s', v, i);
    assert forall v: nat, i: nat :: v != w ==> (Runs(s', v, i) <==> Runs(s, v, i));
    assert s'.workers.Keys == s.workers.Keys;
    CallCalls(s, s', w, i0);
  }

  lemma CallCalls<R>(s: System<R>, s': System<R>, w: nat, i0: nat)
    requires Calls(s) && Has(s, w, i0) && !Runs(s, w, i0)
    requires s' == s.(workers := s.workers[w := Running(i0)], called := s.called + [i0])
    requires forall v: nat :: Has(s, v, i0) ==> v == w
    ensures Calls(s')
  {
    assert Runs(s', w, i0);
    assert forall v: nat, i: nat :: v != w ==> (Runs(s', v, i) <==> Runs(s, v, i));
    assert forall v: nat, i: nat :: Has(s', v, i) <==> Has(s, v, i);
    assert forall v: nat, i: nat :: Runs(s, v, i) ==> Runs(s', v, i);
    assert i0 !in s.called;
    forall i: nat | i in s'.called ensures i in s'.results || i in s'.failed || exists v :: Runs(s', v, i) {
      if i != i0 && i !in s.results && i !in s.failed {
        var v :| Runs(s, v, i);
        assert Runs(s', v, i);
      }
    }
  }

  lemma ReturnTasks<R(!new)>(f: nat -> R, n: nat, s: System<R>, s': System<R>, w: nat, i0: nat)
    requires Tasks(f, n, s) && Calls(s) && Runs(s, w, i0)
    requires s' == s.(results := s.results[i0 := f(i0)], workers := s.workers - {w})
    ensures Tasks(f, n, s') && Calls(s')
  {
    assert Has(s, w, i0);
    assert forall v: nat, i: nat :: Has(s', v, i) <==> Has(s, v, i) && v != w;
    assert forall v: nat, i: nat :: Runs(s', v, i) <==> Runs(s, v, i) && v != w;
    forall i: nat | i < s.index && i !in s'.results && i !in s'.failed ensures exists v :: Has(s', v, i) {
      var v :| Has(s, v, i);
      assert Has(s', v, i);
    }
    forall i: nat | i in s.called && i !in s'.results && i !in s'.failed ensures exists v :: Runs(s', v, i) {
      var v :| Runs(s, v, i);
      assert Runs(s', v, i);
    }
  }

  lemma ThrowTasks<R(!new)>(f: nat -> R, n: nat, s: System<R>, s': System<R>, w: nat, i0: nat)
    requires Tasks(f, n, s) && Calls(s) && Runs(s, w, i0)
    requires s' == s.(failed := s.failed + {i0}, workers := s.workers[w := Finished])
    ensures Tasks(f, n, s') && Calls(s')
  {
    assert Has(s, w, i0);
    assert forall v: nat, i: nat :: Has(s', v, i) <==> Has(s, v, i) && v != w;
    assert forall v: nat, i: nat :: Runs(s', v, i) <==> Runs(s, v, i) && v != w;
    forall i: nat | i < s.index && i !in s'.results && i !in s'.failed ensures exists v :: Has(s', v, i) {
      var v :| Has(s, v, i);
      assert Has(s', v, i);
    }
    forall i: nat | i in s.called && i !in s'.results && i !in s'.failed ensures exists v :: Runs(s', v, i) {
      var v :| Runs(s, v, i);
      assert Runs(s', v, i);
    }
  }

  lemma ReturnStep<R(!new)>(f: nat -> R, n: nat, s: System<R>, w: nat)
    requires Inv(f, n, s) && Enabled(s, n, Return(w))
    ensures Inv(f, n, Next(f, n, s, Return(w)))
  {
    var i0 := s.workers[w].i;
    var stored := s.(results := s.results[i0 := f(i0)], workers := s.workers - {w});
    ReturnTasks(f, n, s, stored, w, i0);
    LooseRoles(s, stored, w);
    FreeKeeps(f, n, stored, Worker(w));
    FreeSameWork(stored, Worker(w));
    var freed := Free(stored, Worker(w));
    ClaimKeeps(f, n, freed, w);
    ReturnStops(n, s, freed, w);
  }

  lemma LooseRoles<R>(s: System<R>, s': System<R>, w: nat)
    requires Slots(s) && Roles(s, None) && w in s.workers && s.workers[w].Running?
    requires s' == s.(results := s'.results, failed := s'.failed, workers := s'.workers)
    requires s'.workers == s.workers - {w} || s'.workers == s.workers[w := Finished]
    ensures Slots(s') && Roles(s', Some(Worker(w))) && Worker(w) in s'.holders
  {
  }

  lemma ReturnStops<R>(n: nat, s: System<R>, freed: System<R>, w: nat)
    requires Stops(n, s) && s.index <= n && w in s.workers && !s.workers[w].Finished?
    requires freed.index == s.index && freed.failed == s.failed && freed.launched == s.launched
    requires forall v :: v in freed.workers ==>
      v in s.workers && (freed.workers[v].Finished? ==> s.workers[v].Finished?)
    ensures Stops(n, Claim(freed, n, w))
  {
    assert w in Claim(freed, n, w).workers;
  }

  lemma ThrowStep<R(!new)>(f: nat -> R, n: nat, s: System<R>, w: nat)
    requires Inv(f, n, s) && Enabled(s, n, Throw(w))
    ensures Inv(f, n, Next(f, n, s, Throw(w)))
  {
    var i0 := s.workers[w].i;
    var stored := s.(failed := s.failed + {i0}, workers := s.workers[w := Finished]);
    ThrowTasks(f, n, s, stored, w, i0);
    LooseRoles(s, stored, w);
    FreeKeeps(f, n, stored, Worker(w));
    FreeSameWork(stored, Worker(w));
    assert i0 in Free(stored, Worker(w)).failed;
    assert w in Free(stored, Worker(w)).workers;
  }

  lemma OtherSteps<R(!new)>(f: nat -> R, n: nat, s: System<R>, step: Step)
    requires Inv(f, n, s) && Enabled(s, n, step) && (step.OtherAcquire? || step.OtherRelease?)
    ensures Inv(f, n, Next(f, n, s, step))
  {
    if step.OtherAcquire? {
      var s' := Next(f, n, s, step);
      AskSlots(s, Other(step.id));
      assert SameWork(s, s');
      SameWorkTasks(f, n, s, s');
      SameWorkCalls(n, s, s');
    } else {
      FreeKeeps(f, n, s, Other(step.id));
      FreeSameWork(s, Other(step.id));
      SameWorkCalls(n, s, Free(s, Other(step.id)));
    }
  }

  lemma StepKeeps<R(!new)>(f: nat -> R, n: nat, s: System<R>, step: Step)
    requires Inv(f, n, s) && Enabled(s, n, step)
    ensures Inv(f, n, Next(f, n, s, step))
  {
    match step
    case Launch => LaunchStep(f, n, s);
    case Call(w) => CallStep(f, n, s, w);
    case Return(w) => ReturnStep(f, n, s, w);
    case Throw(w) => ThrowStep(f, n, s, w);
    case OtherAcquire(id) => OtherSteps(f, n, s, step);
    case OtherRelease(id) => OtherSteps(f, n, s, step);
  }

  // ---------------------------------------------------------------- runs

  /** states is a run: it starts with an idle semaphore, and each state follows from the one before by its step. */
  ghost predicate IsRun<R>(f: nat -> R, n: nat, max: int, states: seq<System<R>>, steps: seq<Step>) {
    && |states| == |steps| + 1 && states[0] == Initial(max)
    && forall k :: 0 <= k < |steps| ==>
         Enabled(states[k], n, steps[k]) && states[k + 1] == Next(f, n, states[k], steps[k])
  }

  /** Every state of every run: slots, phases, tasks and calls agree. */
  lemma {:induction false} EveryRunIsSafe<R(
      !new)>(f: nat -> R, n: nat, max: int, states: seq<System<R>>, steps: seq<Step>, k: nat)
    requires max > 0 && IsRun(f, n, max, states, steps) && k < |states|
    ensures Inv(f, n, states[k])
  {
    if k == 0 {
      assert forall w: nat, i: nat :: !Has(states[0], w, i) && !Runs(states[0], w, i);
    } else {
      EveryRunIsSafe(f, n, max, states, steps, k - 1);
      StepKeeps(f, n, states[k - 1], steps[k - 1]);
    }
  }

  /** w workers launched when `taken` slots of the semaphore were taken: worker i claimed index i, and the first of them
      got the free slots. */
  ghost predicate Started<R>(s: System<R>, taken: nat, w: nat) {
    && s.index == w && s.sem.current == Min(taken + w, s.sem.max)
    && (forall i: nat :: i in s.workers <==> i < w)
    && (forall i: nat :: i < w ==> s.workers[i] == if taken + i < s.sem.max then Granted(i) else Waiting(i))
  }

  lemma StartOne<R>(s: System<R>, n: nat, w: nat, taken: nat)
    requires Started(s, taken, w) && w < n && taken <= s.sem.max
    ensures Started(Claim(s, n, w), taken, w + 1) && Claim(s, n, w).sem.max == s.sem.max
  {
  }

  lemma {:induction false} LaunchStarts<R>(s: System<R>, n: nat, k: nat, taken: nat)
    requires Started(s, taken, 0) && taken <= s.sem.max && k <= n
    ensures Started(LaunchAll(s, n, k), taken, k) && LaunchAll(s, n, k).sem.max == s.sem.max
  {
    if k == 0 {
    } else {
      var before := LaunchAll(s, n, k - 1);
      LaunchStarts(s, n, k - 1, taken);
      StartOne(before, n, k - 1, taken);
      assert LaunchAll(s, n, k) == Claim(before, n, k - 1);
    }
  }

  /** Launching starts as many workers as max and the number of functions allow, worker i with function i, and gives a
      slot to as many as there are slots free: to all of them if nobody else holds one. */
  lemma LaunchGrants<R(!new)>(f: nat -> R, n: nat, s: System<R>)
    requires Inv(f, n, s) && !s.launched
    ensures var s', m := Next(f, n, s, Launch), Min(s.sem.max, n);
      && (forall w: nat :: w in s'.workers <==> w < m)
      && (forall w: nat :: w < m ==>
            s'.workers[w] == if s.sem.current + w < s.sem.max then Granted(w) else Waiting(w))
      && s'.sem.current == Min(s.sem.current + m, s.sem.max)
  {
    LaunchStarts(s.(launched := true), n, NumWorkers(s.sem.max, n), s.sem.current);
  }

  // ---------------------------------------------------------------- slots in the order asked for

  /** The step gives a slot back. */
  predicate IsRelease(step: Step) {
    step.Return? || step.Throw? || step.OtherRelease?
  }

  /** How many of the steps from a up to b give a slot back. */
  function Releases(steps: seq<Step>, a: nat, b: nat): nat
    requires a <= b <= |steps|
  {
    if b == a then 0 else Releases(steps, a, b - 1) + if IsRelease(steps[b - 1]) then 1 else 0
  }

  lemma {:induction false} LaunchQueues<R>(s: System<R>, n: nat, k: nat)
    ensures s.sem.queue <= LaunchAll(s, n, k).sem.queue
  {
    if k == 0 {
    } else {
      LaunchQueues(s, n, k - 1);
    }
  }

  /** A release gives the slot to the head of the queue, and nothing else takes anybody out of it. */
  lemma QueueAdvances<R(!new)>(f: nat -> R, n: nat, s: System<R>, step: Step)
    requires Slots(s) && Enabled(s, n, step)
    ensures var q, s' := s.sem.queue, Next(f, n, s, step);
      if IsRelease(step) then q != [] ==> q[1..] <= s'.sem.queue && q[0] in s'.holders else q <= s'.sem.queue
  {
    match step
    case Launch => LaunchQueues(s.(launched := true), n, NumWorkers(s.sem.max, n));
    case _ =>
  }

  /** Client c is at position k of the queue or, for k = -1, holds a slot. */
  ghost predicate IsAt<R>(s: System<R>, c: Client, k: int) {
    if k < 0 then k == -1 && c in s.holders else k < |s.sem.queue| && s.sem.queue[k] == c
  }

  lemma QueueMoves<R(!new)>(f: nat -> R, n: nat, s: System<R>, step: Step, c: Client, k: nat)
    requires Slots(s) && Enabled(s, n, step) && IsAt(s, c, k)
    ensures IsAt(Next(f, n, s, step), c, if IsRelease(step) then k - 1 else k)
  {
    QueueAdvances(f, n, s, step);
    if IsRelease(step) && k > 0 {
      assert s.sem.queue[1..][k - 1] == c;
    }
  }

  lemma RunMoves<R(!new)>(
      f: nat -> R, n: nat, max: int, states: seq<System<R>>, steps: seq<Step>, j: nat, c: Client, k: nat, k': int)
    requires max > 0 && IsRun(f, n, max, states, steps) && j < |steps| && IsAt(states[j], c, k)
    requires k' == if IsRelease(steps[j]) then k - 1 else k
    ensures IsAt(states[j + 1], c, k')
  {
    EveryRunIsSafe(f, n, max, states, steps, j);
    QueueMoves(f, n, states[j], steps[j], c, k);
  }

  /** Slots are given in the order they were asked for: whoever waits at position k moves up by one at each release and
      holds a slot after k + 1 of them, whatever else is asked for in the meantime. */
  lemma {:induction false} ServedInTurn<R(!new)>(
      f: nat -> R, n: nat, max: int, states: seq<System<R>>, steps: seq<Step>, a: nat, b: nat, c: Client, k: nat)
    requires max > 0 && IsRun(f, n, max, states, steps) && a <= b <= |steps| && IsAt(states[a], c, k)
    requires Releases(steps, a, b) <= k + 1
    requires Releases(steps, a, b) == k + 1 ==> IsRelease(steps[b - 1])
    ensures IsAt(states[b], c, k - Releases(steps, a, b))
  {
    if b == a {
    } else {
      var r := Releases(steps, a, b - 1);
      ServedInTurn(f, n, max, states, steps, a, b - 1, c, k);
      RunMoves(f, n, max, states, steps, b - 1, c, k - r, k - Releases(steps, a, b));
    }
  }

  // ---------------------------------------------------------------- how runs end

  ghost predicate AllFinished<R>(s: System<R>) {
    s.launched && forall w :: w in s.workers ==> s.workers[w].Finished?
  }

  /** When all workers have finished and no function failed, every slot holds its own function's result, and every
      function was called exactly once. */
  lemma FinishedIsComplete<R(!new)>(f: nat -> R, n: nat, s: System<R>)
    requires Inv(f, n, s) && AllFinished(s) && s.failed == {}
    ensures (forall i: nat :: i in s.results <==> i < n) && (forall i :: i in s.results ==> s.results[i] == f(i))
    ensures NoDuplicates(s.called) && forall i: nat :: i in s.called <==> i < n
  {
    if n > 0 {
      assert s.workers.Keys != {};
      var w :| w in s.workers;
      assert s.index == n;
    }
    assert forall w: nat, i: nat :: !Has(s, w, i);
    forall i: nat | i in s.called ensures i < n {
      CalledBelow(f, n, s, i);
    }
  }

  /** Until then some worker can move, or somebody outside holds a slot: no worker waits for nothing. */
  lemma NeverStuck<R(!new)>(f: nat -> R, n: nat, s: System<R>)
    requires Inv(f, n, s) && s.launched && !AllFinished(s)
    ensures (exists w :: Enabled(s, n, Call(w)) || Enabled(s, n, Return(w))) || (exists id :: Other(id) in s.holders)
  {
    var w :| w in s.workers && !s.workers[w].Finished?;
    if s.workers[w].Waiting? {
      assert Worker(w) in s.sem.queue;
      assert s.holders != {};
      var c :| c in s.holders;
      if c.Worker? {
        WorkerMoves(f, n, s, c.w);
      }
    } else {
      WorkerMoves(f, n, s, w);
    }
  }

  lemma WorkerMoves<R(!new)>(f: nat -> R, n: nat, s: System<R>, w: nat)
    requires Inv(f, n, s) && w in s.workers && (s.workers[w].Granted? || s.workers[w].Running?)
    ensures Enabled(s, n, Call(w)) || Enabled(s, n, Return(w))
  {
    assert Has(s, w, s.workers[w].i);
  }

  /** Calls made plus functions ended. */
  function Progress<R>(s: System<R>): nat {
    |s.called| + |s.results| + |s.failed|
  }

  lemma ReturnProgress<R(!new)>(f: nat -> R, n: nat, s: System<R>, w: nat)
    requires Tasks(f, n, s) && Enabled(s, n, Return(w))
    ensures Progress(Next(f, n, s, Return(w))) == Progress(s) + 1
  {
    var i := s.workers[w].i;
    assert Has(s, w, i);
    assert i !in s.results;
    var stored := s.(results := s.results[i := f(i)], workers := s.workers - {w});
    assert |stored.results| == |s.results| + 1 by {
      assert stored.results.Keys == s.results.Keys + {i};
    }
    FreeSameWork(stored, Worker(w));
    var freed := Free(stored, Worker(w));
    assert freed.called == s.called && freed.results == stored.results && freed.failed == s.failed;
  }

  lemma ThrowProgress<R(!new)>(f: nat -> R, n: nat, s: System<R>, w: nat)
    requires Tasks(f, n, s) && Enabled(s, n, Throw(w))
    ensures Progress(Next(f, n, s, Throw(w))) == Progress(s) + 1
  {
    var i := s.workers[w].i;
    assert Has(s, w, i);
    assert |s.failed + {i}| == |s.failed| + 1;
    var stored := s.(failed := s.failed + {i}, workers := s.workers[w := Finished]);
    FreeSameWork(stored, Worker(w));
  }

  /** Each step of a launched worker adds one to the progress, and no other step changes it. */
  lemma StepProgress<R(!new)>(f: nat -> R, n: nat, s: System<R>, step: Step)
    requires Tasks(f, n, s) && Enabled(s, n, step)
    ensures Progress(Next(f, n, s, step)) == Progress(s) + if step.Call? || step.Return? || step.Throw? then 1 else 0
  {
    match step
    case Launch => LaunchProgress(s.(launched := true), n, NumWorkers(s.sem.max, n));
    case Return(w) => ReturnProgress(f, n, s, w);
    case Throw(w) => ThrowProgress(f, n, s, w);
    case OtherRelease(id) => FreeSameWork(s, Other(id));
    case _ =>
  }

  lemma {:induction false} LaunchProgress<R>(s: System<R>, n: nat, k: nat)
    ensures Progress(LaunchAll(s, n, k)) == Progress(s)
  {
    if k == 0 {
    } else {
      LaunchProgress(s, n, k - 1);
    }
  }

  /** The progress never passes 2 * n; so in every run the workers make at most 2 * n steps, and then all have
      finished. */
  lemma ProgressBound<R(!new)>(f: nat -> R, n: nat, s: System<R>)
    requires Inv(f, n, s)
    ensures Progress(s) <= 2 * n
  {
    forall i: nat | i in s.called ensures i < n {
      CalledBelow(f, n, s, i);
    }
    DistinctSize(s.called);
    SubsetBelow(Elements(s.called), n);
    var ended := s.results.Keys + s.failed;
    assert |ended| == |s.results.Keys| + |s.failed|;
    SubsetBelow(ended, n);
  }

  lemma {:induction false} SubsetBelow(a: set<nat>, n: nat)
    requires forall i :: i in a ==> i < n
    ensures |a| <= n
  {
    if n == 0 {
      assert a == {};
    } else {
      SubsetBelow(a - {n - 1}, n - 1);
      if n - 1 in a {
        assert a == (a - {n - 1}) + {n - 1};
      } else {
        assert a == a - {n - 1};
      }
    }
  }

  predicate WorkerStep(step: Step) {
    step.Call? || step.Return? || step.Throw?
  }

  /** How many of the first k steps a worker of runAll makes. */
  function WorkerSteps(steps: seq<Step>, k: nat): nat
    requires k <= |steps|
  {
    if k == 0 then 0 else WorkerSteps(steps, k - 1) + if WorkerStep(steps[k - 1]) then 1 else 0
  }

  lemma {:induction false} RunProgress<R(!new)>(
      f: nat -> R, n: nat, max: int, states: seq<System<R>>, steps: seq<Step>, k: nat)
    requires max > 0 && IsRun(f, n, max, states, steps) && k < |states|
    ensures Progress(states[k]) == WorkerSteps(steps, k)
  {
    if k == 0 {
    } else {
      RunProgress(f, n, max, states, steps, k - 1);
      EveryRunIsSafe(f, n, max, states, steps, k - 1);
      StepProgress(f, n, states[k - 1], steps[k - 1]);
    }
  }

  /** Every run ends: whatever the schedule, the workers make at most 2 * n steps. */
  lemma EveryRunEnds<R(!new)>(f: nat -> R, n: nat, max: int, states: seq<System<R>>, steps: seq<Step>)
    requires max > 0 && IsRun(f, n, max, states, steps)
    ensures WorkerSteps(steps, |steps|) <= 2 * n
  {
    RunProgress(f, n, max, states, steps, |steps|);
    EveryRunIsSafe(f, n, max, states, steps, |steps|);
    ProgressBound(f, n, states[|steps|]);
  }

  /** No worker of runAll can make a step. */
  ghost predicate Quiet<R>(s: System<R>, n: nat) {
    forall w: nat :: !Enabled(s, n, Call(w)) && !Enabled(s, n, Return(w)) && !Enabled(s, n, Throw(w))
  }

  /** And it ends in the right place: once launched, as long as nobody else holds a slot, no worker can make a step if
      and only if all have finished. */
  lemma QuietIffFinished<R(!new)>(f: nat -> R, n: nat, s: System<R>)
    requires Inv(f, n, s) && s.launched && forall id :: Other(id) !in s.holders
    ensures Quiet(s, n) <==> AllFinished(s)
  {
    if !AllFinished(s) {
      NeverStuck(f, n, s);
    }
  }
}
