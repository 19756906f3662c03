/** The WorkerPool of packages/worker/src/index.ts.

    A worker's record is a number, its identity, looked up in `info`; `workers` is the pool's array. Messages and errors
    may come from any worker ever created, in any order, also from one that has been replaced. Tasks are numbered by the
    pool's own counter. Posting a task whose data cannot be cloned throws, after the worker has been marked busy with
    it. `started`, `posted` and `settled` record what the outside can observe: the tasks handed to a worker, those whose
    message got through, and those whose promise is settled. */
module WorkerPool {
  import opened Common

  type Task = nat

  /** Whether a task's message can be cloned. */
  type Posts = Task -> bool

  datatype WorkerInfo = WorkerInfo(busy: bool, currentTask: Option<Task>)

  datatype Outcome = Resolved | Failed | Errored | Terminated | Uncloneable

  datatype Pool = Pool(workers: seq<nat>, info: map<nat, WorkerInfo>, queue: seq<Task>, taskCounter: nat,
                       terminated: bool, started: seq<Task>, posted: set<Task>, settled: seq<Settlement<Outcome>>)

  const IDLE := WorkerInfo(false, None)

  // ---------------------------------------------------------------- the operations as functions

  predicate Busy(p: Pool, w: nat) {
    w in p.info && p.info[w].busy
  }

  /** workers.find(w => !w.busy) */
  function FirstIdle(p: Pool, i: nat): Option<nat>
    requires i <= |p.workers|
    decreases |p.workers| - i
  {
    if i == |p.workers| then None
    else if !Busy(p, p.workers[i]) then Some(p.workers[i])
    else FirstIdle(p, i + 1)
  }

  function Execute(posts: Posts, p: Pool, w: nat, task: Task): Pool {
    p.(info := p.info[w := WorkerInfo(true, Some(task))], started := p.started + [task],
       posted := if posts(task) then p.posted + {task} else p.posted)
  }

  function Assign(posts: Posts, p: Pool, task: Task): Pool {
    match FirstIdle(p, 0)
    case Some(w) => Execute(posts, p, w, task)
    case None => p.(queue := p.queue + [task])
  }

  /** Assigning a task throws. */
  predicate AssignThrows(posts: Posts, p: Pool, task: Task) {
    FirstIdle(p, 0).Some? && !posts(task)
  }

  /** A promise is settled once; settling it again does nothing. */
  function Settle(settled: seq<Settlement<Outcome>>, task: Task, outcome: Outcome): seq<Settlement<Outcome>> {
    if task in SettledTasks(settled) then settled else settled + [Settlement(task, outcome)]
  }

  /** run() on a live pool. What its promise's executor throws rejects the promise. */
  function Accept(posts: Posts, p: Pool): Pool {
    var task := p.taskCounter;
    var counted := p.(taskCounter := task + 1);
    var given := Assign(posts, counted, task);
    if AssignThrows(posts, counted, task) then given.(settled := Settle(given.settled, task, Uncloneable))
    else given
  }

  function ProcessQueue(posts: Posts, p: Pool): Pool {
    if p.queue == [] || p.terminated then p
    else
      match FirstIdle(p, 0)
      case Some(w) => Execute(posts, p.(queue := p.queue[1..]), w, p.queue[0])
      case None => p
  }

  /** Processing the queue throws, out of the event handler that does it. */
  predicate ProcessThrows(posts: Posts, p: Pool) {
    p.queue != [] && !p.terminated && AssignThrows(posts, p, p.queue[0])
  }

  /** The handler's first lines: the worker becomes idle, and its task, if any, is settled. */
  function Release(p: Pool, w: nat, outcome: Outcome): Pool
    requires w in p.info
  {
    var idle := p.(info := p.info[w := IDLE]);
    match p.info[w].currentTask
    case None => idle
    case Some(task) => idle.(settled := Settle(p.settled, task, outcome))
  }

  /** A new worker in the place of w, under a number not used before. */
  function Replace(p: Pool, w: nat, replacement: nat): Pool {
    if w in p.workers
    then p.(workers := p.workers[IndexOf(p.workers, w) := replacement], info := p.info[replacement := IDLE])
    else p
  }

  function IndexOf(s: seq<nat>, x: nat): (i: nat)
    requires x in s
    ensures i < |s| && s[i] == x && x !in s[..i]
  {
    if s[0] == x then 0 else
      assert s == [s[0]] + s[1..];
      var i := 1 + IndexOf(s[1..], x);
      assert s[..i] == [s[0]] + s[1..][..i - 1];
      i
  }

  function RejectAll(tasks: seq<Task>): (r: seq<Settlement<Outcome>>)
    ensures |r| == |tasks| && forall i :: 0 <= i < |r| ==> r[i] == Settlement(tasks[i], Terminated)
  {
    seq(|tasks|, i requires 0 <= i < |tasks| => Settlement(tasks[i], Terminated))
  }

  datatype Event =
    | Run
    | Message(w: nat, error: bool)
    | Error(w: nat, replacement: nat)
    | Terminate
    | TerminateDone

  function Released(p: Pool, e: Event): Pool
    requires (e.Message? || e.Error?) && e.w in p.info
  {
    match e
    case Message(w, error) => Release(p, w, if error then Failed else Resolved)
    case Error(w, replacement) => Replace(Release(p, w, Errored), w, replacement)
  }

  function Next(posts: Posts, p: Pool, e: Event): Pool
    requires e.Message? || e.Error? ==> e.w in p.info
  {
    match e
    case Run => if p.terminated then p else Accept(posts, p)
    case Message(_, _) => ProcessQueue(posts, Released(p, e))
    case Error(_, _) => ProcessQueue(posts, Released(p, e))
    case Terminate => p.(terminated := true, settled := p.settled + RejectAll(p.queue), queue := [])
    case TerminateDone => p.(workers := [])
  }

  /** run() hands a task that cannot be posted straight to an idle worker. */
  predicate RunThrows(posts: Posts, p: Pool, e: Event) {
    e.Run? && !p.terminated && AssignThrows(posts, p.(taskCounter := p.taskCounter + 1), p.taskCounter)
  }

  // ---------------------------------------------------------------- the class

  /** How the promise of a run stands when run returns. */
  datatype Answer = Pending | Refused | Thrown

  class WorkerPool {
    const posts: Posts
    var workers: seq<nat>
    var info: map<nat, WorkerInfo>
    var queue: seq<Task>
    var taskCounter: nat
    var terminated: bool
    var started: seq<Task>
    var posted: set<Task>
    var settled: seq<Settlement<Outcome>>

    ghost function Abs(): Pool
      reads this
    {
      Pool(workers, info, queue, taskCounter, terminated, started, posted, settled)
    }

    constructor (size: Option<int>, hardware: Option<int>, isMainThread: bool, posts: Posts)
      ensures this.posts == posts && Abs() == Initial(|workers|)
      ensures |workers| == var n := if size.Some? then size.value else if hardware.Some? then hardware.value else 4;
        if isMainThread && n > 0 then n else 0
      ensures NoDuplicates(workers) && forall w :: w in workers ==> w in info && info[w] == WorkerInfo(false, None)
      ensures queue == [] && settled == [] && !terminated
    {
      this.posts := posts;
      workers, info := [], map[];
      queue, taskCounter, terminated, started, posted, settled := [], 0, false, [], {}, [];
      new;
      var poolSize := if size.Some? then size.value else if hardware.Some? then hardware.value else 4;
      if isMainThread {
        var i := 0;
        while i < poolSize
          invariant 0 <= i && (i <= poolSize || i == 0)
          invariant workers == Initial(i).workers && info == Initial(i).info
          invariant queue == [] && taskCounter == 0 && !terminated && started == [] && posted == {} && settled == []
        {
          OneMoreWorker(i);
          workers := workers + [i];
          info := info[i := IDLE];
          i := i + 1;
        }
      }
    }

    method Run() returns (answer: Answer)
      modifies this
      ensures Abs() == Next(posts, old(Abs()), Event.Run)
      ensures answer == if old(terminated) then Refused
                        else if RunThrows(posts, old(Abs()), Event.Run) then Thrown
                        else Pending
    {
      if terminated {
        return Refused;
      }
      var task := taskCounter;
      taskCounter := taskCounter + 1;
      assert FirstIdle(Abs(), 0) == FirstIdle(old(Abs()), 0) by { SameWorkersSameIdle(Abs(), old(Abs()), 0); }
      var throws := AssignTask(task);
      if throws {
        SettlePromise(task, Uncloneable);
        return Thrown;
      }
      return Pending;
    }

    method SettlePromise(task: Task, outcome: Outcome)
      modifies this`settled
      ensures settled == Settle(old(settled), task, outcome)
    {
      if task !in SettledTasks(settled) {
        settled := settled + [Settlement(task, outcome)];
      }
    }

    method OnMessage(w: nat, error: bool) returns (throws: bool)
      requires w in info
      modifies this
      ensures Abs() == Next(posts, old(Abs()), Message(w, error))
      ensures throws == ProcessThrows(posts, Released(old(Abs()), Message(w, error)))
    {
      var task := info[w].currentTask;
      info := info[w := WorkerInfo(false, None)];
      if task.Some? {
        SettlePromise(task.value, if error then Failed else Resolved);
      }
      throws := ProcessNext();
    }

    /** replacement is the identity of the worker created in the place of the failed one. */
    method OnError(w: nat, replacement: nat) returns (throws: bool)
      requires w in info
      modifies this
      ensures Abs() == Next(posts, old(Abs()), Error(w, replacement))
      ensures throws == ProcessThrows(posts, Released(old(Abs()), Error(w, replacement)))
    {
      var task := info[w].currentTask;
      info := info[w := WorkerInfo(false, None)];
      if task.Some? {
        SettlePromise(task.value, Errored);
      }
      if w in workers {
        var index := IndexOf(workers, w);
        workers := workers[index := replacement];
        info := info[replacement := IDLE];
      }
      throws := ProcessNext();
    }

    method Terminate()
      modifies this
      ensures Abs() == Next(posts, old(Abs()), Event.Terminate)
    {
      terminated := true;
      for i := 0 to |queue|
        invariant queue == old(queue)
        invariant Abs() == old(Abs()).(terminated := true, settled := old(settled) + RejectAll(queue[..i]))
      {
        settled := settled + [Settlement(queue[i], Terminated)];
        assert RejectAll(queue[..i + 1]) == RejectAll(queue[..i]) + [Settlement(queue[i], Terminated)];
      }
      assert queue[..|queue|] == queue;
      queue := [];
    }

    /** terminate() after all workers have gone. */
    method TerminateDone()
      modifies this
      ensures Abs() == Next(posts, old(Abs()), Event.TerminateDone)
    {
      workers := [];
    }

    method FindIdle() returns (w: Option<nat>)
      ensures w == FirstIdle(Abs(), 0)
    {
      for i := 0 to |workers|
        invariant FirstIdle(Abs(), i) == FirstIdle(Abs(), 0)
      {
        if !(workers[i] in info && info[workers[i]].busy) {
          return Some(workers[i]);
        }
      }
      return None;
    }

    method AssignTask(task: Task) returns (throws: bool)
      modifies this
      ensures Abs() == Assign(posts, old(Abs()), task) && throws == AssignThrows(posts, old(Abs()), task)
    {
      throws := false;
      var worker := FindIdle();
      if worker.Some? {
        throws := ExecuteTask(worker.value, task);
      } else {
        queue := queue + [task];
      }
    }

    /** postMessage comes last, so when it throws the worker is already busy with the task. */
    method ExecuteTask(w: nat, task: Task) returns (throws: bool)
      modifies this
      ensures Abs() == Execute(posts, old(Abs()), w, task) && throws == !posts(task)
    {
      info := info[w := WorkerInfo(true, Some(task))];
      started := started + [task];
      if !posts(task) {
        return true;
      }
      posted := posted + {task};
      return false;
    }

    method ProcessNext() returns (throws: bool)
      modifies this
      ensures Abs() == ProcessQueue(posts, old(Abs())) && throws == ProcessThrows(posts, old(Abs()))
    {
      throws := false;
      if |queue| == 0 || terminated {
        return;
      }
      var worker := FindIdle();
      if worker.Some? {
        var task := queue[0];
        queue := queue[1..];
        throws := ExecuteTask(worker.value, task);
      }
    }
  }

  lemma {:induction false} SameWorkersSameIdle(p: Pool, q: Pool, i: nat)
    requires p.workers == q.workers && p.info == q.info && i <= |p.workers|
    ensures FirstIdle(p, i) == FirstIdle(q, i)
    decreases |p.workers| - i
  {
    if i == |p.workers| {
    } else {
      SameWorkersSameIdle(p, q, i + 1);
    }
  }

  // ---------------------------------------------------------------- what every event keeps

  function Numbers(n: nat): (r: seq<nat>)
    ensures |r| == n && forall i :: 0 <= i < n ==> r[i] == i
  {
    seq(n, i => i)
  }

  function Initial(size: nat): Pool {
    var workers := Numbers(size);
    Pool(workers, map w | w in workers :: IDLE, [], 0, false, [], {}, [])
  }

  lemma OneMoreWorker(n: nat)
    ensures Initial(n + 1) == Initial(n).(workers := Initial(n).workers + [n], info := Initial(n).info[n := IDLE])
  {
    assert Numbers(n + 1) == Numbers(n) + [n];
    assert Numbers(n)[..] == Numbers(n);
    assert forall w: nat :: w in Numbers(n + 1) <==> w in Numbers(n) || w == n;
  }

  ghost predicate RunsOn(p: Pool, w: nat, task: Task) {
    w in p.info && p.info[w].currentTask == Some(task)
  }

  /** The records are consistent: a worker is busy exactly when it has a task, and in a live pool one that has been
      replaced stays idle. */
  ghost predicate Workers(p: Pool) {
    && NoDuplicates(p.workers)
    && (forall w :: w in p.workers ==> w in p.info)
    && (forall w :: w in p.info ==> (p.info[w].busy <==> p.info[w].currentTask.Some?))
    && (!p.terminated ==> forall w :: Busy(p, w) ==> w in p.workers)
  }

  /** What is true of the places of tasks in every run: each accepted task is queued, on one worker, or settled; a
      queued one is nowhere else, and one that is on a worker and settled could not be posted to it. */
  ghost predicate Placed(posts: Posts, p: Pool) {
    && NoDuplicates(p.queue) && NoDuplicates(SettledTasks(p.settled))
    && (forall v: nat, w: nat, t: Task :: RunsOn(p, v, t) && RunsOn(p, w, t) ==> v == w)
    && (forall w: nat, t: Task :: RunsOn(p, w, t) ==> t < p.taskCounter && t !in p.queue && t in p.started)
    && (forall w: nat, t: Task :: RunsOn(p, w, t) && t in SettledTasks(p.settled) ==> !posts(t))
    && (forall t: Task :: t in p.queue ==> t < p.taskCounter && t !in SettledTasks(p.settled))
    && (forall t: Task :: t in SettledTasks(p.settled) ==> t < p.taskCounter)
    && (forall t: Task :: t < p.taskCounter
                ==> t in p.queue || t in SettledTasks(p.settled) || exists w :: RunsOn(p, w, t))
    && (forall t: Task :: t in p.posted <==> t in p.started && posts(t))
  }

  /** Every task accepted so far is in exactly one place: queued, on one worker, or settled. */
  ghost predicate OnePlace(p: Pool) {
    && NoDuplicates(p.queue) && NoDuplicates(SettledTasks(p.settled))
    && (forall v: nat, w: nat, t: Task :: RunsOn(p, v, t) && RunsOn(p, w, t) ==> v == w)
    && (forall w: nat, t: Task :: RunsOn(p, w, t) ==> t !in p.queue && t !in SettledTasks(p.settled))
    && (forall t: Task :: t in p.queue ==> t !in SettledTasks(p.settled))
    && (forall t: Task :: t < p.taskCounter
                <==> t in p.queue || t in SettledTasks(p.settled) || exists w :: RunsOn(p, w, t))
  }

  /** And every worker with a task has received it. */
  ghost predicate Delivered(p: Pool) {
    OnePlace(p) && forall w: nat, t: Task :: RunsOn(p, w, t) ==> t in p.posted
  }

  /** In a live pool a task waits only if every worker is busy, and tasks start in the order they were accepted. */
  ghost predicate Live(p: Pool) {
    !p.terminated ==>
      && (p.queue != [] ==> forall w :: w in p.workers ==> Busy(p, w))
      && p.started + p.queue == Numbers(p.taskCounter)
  }

  ghost predicate Inv(posts: Posts, p: Pool) {
    Workers(p) && Placed(posts, p) && Live(p)
  }

  ghost predicate AllBusy(p: Pool, i: nat, j: nat)
    requires j <= |p.workers|
  {
    forall k :: i <= k < j ==> Busy(p, p.workers[k])
  }

  /** A worker found is the first idle one; if none is found, all are busy. */
  lemma {:induction false} FirstIdleIs(p: Pool, i: nat)
    requires i <= |p.workers|
    ensures match FirstIdle(p, i)
            case Some(w) =>
              && w in p.workers && !Busy(p, w)
              && exists j :: i <= j < |p.workers| && p.workers[j] == w && AllBusy(p, i, j)
            case None => AllBusy(p, i, |p.workers|)
    decreases |p.workers| - i
  {
    if i == |p.workers| || !Busy(p, p.workers[i]) {
    } else {
      FirstIdleIs(p, i + 1);
    }
  }

  /** Placed, but for one accepted task that has not been given a place yet. */
  ghost predicate Unplaced(posts: Posts, p: Pool, task: Task) {
    && NoDuplicates(p.queue) && NoDuplicates(SettledTasks(p.settled))
    && (forall v: nat, w: nat, t: Task :: RunsOn(p, v, t) && RunsOn(p, w, t) ==> v == w)
    && (forall w: nat, t: Task :: RunsOn(p, w, t) ==> t < p.taskCounter && t != task && t !in p.queue && t in p.started)
    && (forall w: nat, t: Task :: RunsOn(p, w, t) && t in SettledTasks(p.settled) ==> !posts(t))
    && (forall t: Task :: t in p.queue ==> t < p.taskCounter && t != task && t !in SettledTasks(p.settled))
    && (forall t: Task :: t in SettledTasks(p.settled) ==> t < p.taskCounter && t != task)
    && task < p.taskCounter
    && (forall t: Task :: t < p.taskCounter && t != task ==>
          t in p.queue || t in SettledTasks(p.settled) || exists w :: RunsOn(p, w, t))
    && (forall t: Task :: t in p.posted <==> t in p.started && posts(t))
  }

  /** It is given to an idle worker. */
  lemma ExecuteKeeps(posts: Posts, p: Pool, w: nat, task: Task)
    requires Unplaced(posts, p, task) && (w in p.info ==> p.info[w].currentTask == None)
    ensures Placed(posts, Execute(posts, p, w, task))
  {
    var p' := Execute(posts, p, w, task);
    assert RunsOn(p', w, task);
    assert forall v: nat, t: Task :: v != w ==> (RunsOn(p', v, t) <==> RunsOn(p, v, t));
    forall t: Task | t < p.taskCounter && t !in p.queue
      && t !in SettledTasks(p.settled) ensures exists v :: RunsOn(p', v, t) {
      if t != task {
        var v :| RunsOn(p, v, t);
        assert RunsOn(p', v, t);
      }
    }
  }

  lemma QueueKeeps(posts: Posts, p: Pool, task: Task)
    requires Unplaced(posts, p, task)
    ensures Placed(posts, p.(queue := p.queue + [task]))
  {
    var p' := p.(queue := p.queue + [task]);
    forall i, j | 0 <= i < j < |p'.queue| ensures p'.queue[i] != p'.queue[j] {
      assert p'.queue[i] == p.queue[i] && p.queue[i] in p.queue;
    }
    forall t: Task ensures t in p'.queue <==> t in p.queue || t == task {
      assert p'.queue[|p.queue|] == task;
      if t in p.queue {
        var i :| 0 <= i < |p.queue| && p.queue[i] == t;
        assert p'.queue[i] == t;
      }
    }
    assert forall v: nat, t: Task :: RunsOn(p', v, t) <==> RunsOn(p, v, t);
  }

  lemma NewUnplaced(posts: Posts, p: Pool)
    requires Placed(posts, p)
    ensures Unplaced(posts, p.(taskCounter := p.taskCounter + 1), p.taskCounter)
  {
    var p' := p.(taskCounter := p.taskCounter + 1);
    assert forall v: nat, t: Task :: RunsOn(p', v, t) <==> RunsOn(p, v, t);
  }

  lemma HeadUnplaced(posts: Posts, p: Pool)
    requires Placed(posts, p) && p.queue != []
    ensures Unplaced(posts, p.(queue := p.queue[1..]), p.queue[0])
  {
    var p' := p.(queue := p.queue[1..]);
    assert p.queue[0] in p.queue;
    forall t: Task ensures t in p'.queue <==> t in p.queue && t != p.queue[0] {
      if t in p'.queue {
        var i :| 0 <= i < |p'.queue| && p'.queue[i] == t;
        assert p.queue[i + 1] == t;
      }
    }
    assert forall v: nat, t: Task :: RunsOn(p', v, t) <==> RunsOn(p, v, t);
  }

  /** A task that could not be posted is settled while it stays on its worker. */
  lemma ThrownKeeps(posts: Posts, p: Pool, w: nat, task: Task)
    requires Placed(posts, p) && RunsOn(p, w, task) && !posts(task)
    ensures Placed(posts, p.(settled := Settle(p.settled, task, Uncloneable)))
  {
    var p' := p.(settled := Settle(p.settled, task, Uncloneable));
    SettleAdds(p.settled, task, Uncloneable);
    assert forall v: nat, t: Task :: RunsOn(p', v, t) <==> RunsOn(p, v, t);
  }

  lemma SettleAdds(settled: seq<Settlement<Outcome>>, task: Task, outcome: Outcome)
    requires NoDuplicates(SettledTasks(settled))
    ensures NoDuplicates(SettledTasks(Settle(settled, task, outcome)))
    ensures forall t: Task :: t in SettledTasks(Settle(settled, task, outcome))
                <==> t in SettledTasks(settled) || t == task
  {
    var one := Settlement(task, outcome);
    SettledAppend(settled, [one]);
    assert SettledTasks([one]) == [task];
    assert task !in SettledTasks(settled) ==>
      forall i :: 0 <= i < |settled| ==> SettledTasks(settled)[i] in SettledTasks(settled);
  }

  lemma AcceptKeeps(posts: Posts, p: Pool)
    requires Inv(posts, p) && !p.terminated
    ensures Inv(posts, Accept(posts, p))
  {
    var counted, task := p.(taskCounter := p.taskCounter + 1), p.taskCounter;
    NewUnplaced(posts, p);
    FirstIdleIs(counted, 0);
    match FirstIdle(counted, 0)
    case Some(w) =>
      assert !Busy(p, w) && p.queue == [] && p.started + [] == p.started;
      NextNumber(task);
      StartKeeps(posts, counted, w, task);
    case None =>
      WaitKeeps(posts, counted, task);
  }

  lemma NextNumber(n: nat)
    ensures Numbers(n) + [n] == Numbers(n + 1)
  {
  }

  lemma WaitKeeps(posts: Posts, p: Pool, task: Task)
    requires Unplaced(posts, p, task) && Workers(p) && p.taskCounter == task + 1 && FirstIdle(p, 0) == None
    requires p.started + p.queue == Numbers(task)
    ensures Inv(posts, p.(queue := p.queue + [task]))
  {
    QueueKeeps(posts, p, task);
    FirstIdleIs(p, 0);
    NextNumber(task);
    assert p.started + (p.queue + [task]) == p.started + p.queue + [task];
  }

  lemma StartKeeps(posts: Posts, p: Pool, w: nat, task: Task)
    requires Unplaced(posts, p, task) && Workers(p) && w in p.workers && !Busy(p, w) && p.queue == []
    requires p.started + [task] == Numbers(p.taskCounter)
    ensures Inv(posts, Execute(posts, p, w, task))
    ensures var p' := Execute(posts, p, w, task);
      !posts(task) ==> Inv(posts, p'.(settled := Settle(p'.settled, task, Uncloneable)))
  {
    var p' := Execute(posts, p, w, task);
    ExecuteKeeps(posts, p, w, task);
    assert RunsOn(p', w, task) && p'.started + [] == p'.started;
    if !posts(task) {
      ThrownKeeps(posts, p', w, task);
    }
  }

  /** Live but for w, which may be idle while tasks wait. */
  ghost predicate LiveBut(p: Pool, w: nat) {
    !p.terminated ==>
      && (p.queue != [] ==> forall v :: v in p.workers && v != w ==> Busy(p, v))
      && p.started + p.queue == Numbers(p.taskCounter)
  }

  lemma ProcessKeeps(posts: Posts, p: Pool, w: nat)
    requires Workers(p) && Placed(posts, p) && LiveBut(p, w)
    ensures Inv(posts, ProcessQueue(posts, p))
  {
    if p.queue != [] && !p.terminated {
      FirstIdleIs(p, 0);
      if FirstIdle(p, 0).Some? {
        HeadUnplaced(posts, p);
        assert FirstIdle(p, 0).value == w;
        ExecuteKeeps(posts, p.(queue := p.queue[1..]), w, p.queue[0]);
        assert p.started + [p.queue[0]] + p.queue[1..] == p.started + p.queue;
      }
    }
  }

  lemma ReleaseKeeps(posts: Posts, p: Pool, w: nat, outcome: Outcome)
    requires Inv(posts, p) && w in p.info
    ensures var p' := Release(p, w, outcome); Workers(p') && Placed(posts, p') && LiveBut(p', w) && !Busy(p', w)
  {
    var p' := Release(p, w, outcome);
    assert forall v: nat, t: Task :: RunsOn(p', v, t) <==> RunsOn(p, v, t) && v != w;
    if p.info[w].currentTask.Some? {
      var task := p.info[w].currentTask.value;
      assert RunsOn(p, w, task);
      SettleAdds(p.settled, task, outcome);
    }
    forall t: Task | t < p.taskCounter && t !in p'.queue
      && t !in SettledTasks(p'.settled) ensures exists v :: RunsOn(p', v, t) {
      var v :| RunsOn(p, v, t);
      assert RunsOn(p', v, t);
    }
  }

  /** The replacement takes the place of the failed worker, and all others keep theirs. */
  lemma ReplaceIs(p: Pool, w: nat, replacement: nat)
    requires NoDuplicates(p.workers)
    ensures var p' := Replace(p, w, replacement);
      && |p'.workers| == |p.workers|
      && (forall i :: 0 <= i < |p.workers| ==> p'.workers[i] == if p.workers[i] == w then replacement else p.workers[i])
      && (w in p.workers ==> p'.info == p.info[replacement := WorkerInfo(false, None)])
      && (w !in p.workers ==> p'.info == p.info)
  {
  }

  lemma ReplaceKeeps(posts: Posts, p: Pool, w: nat, replacement: nat)
    requires Workers(p) && Placed(posts, p) && LiveBut(p, w) && w in p.info && !Busy(p, w) && replacement !in p.info
    ensures var p' := Replace(p, w, replacement);
      Workers(p') && Placed(posts, p') && LiveBut(p', if w in p.workers then replacement else w)
  {
    if w in p.workers {
      var p' := Replace(p, w, replacement);
      assert forall v: nat, t: Task :: RunsOn(p', v, t) <==> RunsOn(p, v, t);
      forall v | v in p'.workers ensures v == replacement || (v in p.workers && v != w) {
        var j :| 0 <= j < |p'.workers| && p'.workers[j] == v;
      }
      forall v | v in p.workers && v != w ensures v in p'.workers {
        var j :| 0 <= j < |p.workers| && p.workers[j] == v;
        assert p'.workers[j] == v;
      }
    }
  }

  lemma TerminateKeeps(posts: Posts, p: Pool)
    requires Inv(posts, p)
    ensures Inv(posts, Next(posts, p, Terminate))
  {
    var p' := Next(posts, p, Terminate);
    TerminateSettles(posts, p);
    assert forall v: nat, t: Task :: RunsOn(p', v, t) <==> RunsOn(p, v, t);
    var done, all := SettledTasks(p.settled), SettledTasks(p.settled) + p.queue;
    forall i, j | 0 <= i < j < |all| ensures all[i] != all[j] {
      if i < |done| <= j {
        assert all[i] in done && all[j] in p.queue;
      }
    }
  }

  lemma TerminateSettles(posts: Posts, p: Pool)
    ensures SettledTasks(Next(posts, p, Terminate).settled) == SettledTasks(p.settled) + p.queue
  {
    SettledAppend(p.settled, RejectAll(p.queue));
    assert SettledTasks(RejectAll(p.queue)) == p.queue;
  }

  /** Messages and errors come from workers that were created, a message not from one whose current task was never
      posted to it; a replacement is new; and a pool is only emptied after it has been terminated. */
  ghost predicate Enabled(p: Pool, e: Event) {
    match e
    case Run => true
    case Message(w, _) => w in p.info && (p.info[w].currentTask.Some? ==> p.info[w].currentTask.value in p.posted)
    case Error(w, replacement) => w in p.info && replacement !in p.info
    case Terminate => true
    case TerminateDone => p.terminated
  }

  lemma EventKeeps(posts: Posts, p: Pool, e: Event)
    requires Inv(posts, p) && Enabled(p, e)
    ensures Inv(posts, Next(posts, p, e))
  {
    match e
    case Run =>
      if !p.terminated { AcceptKeeps(posts, p); }
    case Message(w, error) =>
      ReleaseKeeps(posts, p, w, if error then Failed else Resolved);
      ProcessKeeps(posts, Released(p, e), w);
    case Error(w, replacement) =>
      ReleaseKeeps(posts, p, w, Errored);
      var p' := Release(p, w, Errored);
      ReplaceKeeps(posts, p', w, replacement);
      ProcessKeeps(posts, Released(p, e), if w in p'.workers then replacement else w);
    case Terminate => TerminateKeeps(posts, p);
    case TerminateDone =>
      var p' := Next(posts, p, TerminateDone);
      assert forall v: nat, t: Task :: RunsOn(p', v, t) <==> RunsOn(p, v, t);
  }

  // ---------------------------------------------------------------- runs

  /** states is a run of a pool of the given size. */
  ghost predicate IsRun(posts: Posts, size: nat, states: seq<Pool>, events: seq<Event>) {
    && |states| == |events| + 1 && states[0] == Initial(size)
    && forall k :: 0 <= k < |events| ==>
         Enabled(states[k], events[k]) && states[k + 1] == Next(posts, states[k], events[k])
  }

  /** In every state of every run each accepted task has its place as Placed says, and in a live pool a task waits only
      while every worker is busy, across errors, replacements and messages that cannot be posted. */
  lemma {:induction false} EveryRunKeeps(posts: Posts, size: nat, states: seq<Pool>, events: seq<Event>, k: nat)
    requires IsRun(posts, size, states, events) && k < |states|
    ensures Inv(posts, states[k])
  {
    if k == 0 {
      assert SettledTasks<Outcome>([]) == [];
      assert Numbers(0) == [];
    } else {
      EveryRunKeeps(posts, size, states, events, k - 1);
      EventKeeps(posts, states[k - 1], events[k - 1]);
    }
  }

  ghost predicate Apart(p: Pool) {
    forall w: nat, t: Task :: RunsOn(p, w, t) ==> t !in SettledTasks(p.settled)
  }

  /** Where tasks are placed as in every run, only one that is settled but still on a worker is in two places. */
  lemma OnePlaceIffApart(posts: Posts, p: Pool)
    requires Placed(posts, p)
    ensures OnePlace(p) <==> Apart(p)
  {
  }

  lemma ExecuteApart(posts: Posts, p: Pool, w: nat, task: Task)
    requires Apart(p) && task !in SettledTasks(p.settled)
    ensures Apart(Execute(posts, p, w, task))
  {
    var p' := Execute(posts, p, w, task);
    assert forall v: nat, t: Task :: RunsOn(p', v, t) ==> RunsOn(p, v, t) || t == task;
  }

  lemma ProcessApart(posts: Posts, p: Pool)
    requires Apart(p) && forall t :: t in p.queue ==> t !in SettledTasks(p.settled)
    ensures Apart(ProcessQueue(posts, p))
  {
    if p.queue != [] && !p.terminated && FirstIdle(p, 0).Some? {
      assert p.queue[0] in p.queue;
      var rest := p.(queue := p.queue[1..]);
      assert forall v: nat, t: Task :: RunsOn(rest, v, t) <==> RunsOn(p, v, t);
      ExecuteApart(posts, rest, FirstIdle(p, 0).value, p.queue[0]);
    }
  }

  lemma ReleaseApart(posts: Posts, p: Pool, w: nat, outcome: Outcome)
    requires Placed(posts, p) && w in p.info && Apart(p)
    ensures Apart(Release(p, w, outcome))
  {
    var p' := Release(p, w, outcome);
    assert forall v: nat, t: Task :: RunsOn(p', v, t) <==> RunsOn(p, v, t) && v != w;
    if p.info[w].currentTask.Some? {
      assert RunsOn(p, w, p.info[w].currentTask.value);
      SettleAdds(p.settled, p.info[w].currentTask.value, outcome);
    }
  }

  lemma ReplaceApart(p: Pool, w: nat, replacement: nat)
    requires Apart(p)
    ensures Apart(Replace(p, w, replacement))
  {
    var p' := Replace(p, w, replacement);
    assert forall v: nat, t: Task :: RunsOn(p', v, t) ==> RunsOn(p, v, t);
  }

  lemma AcceptApartIff(posts: Posts, p: Pool)
    requires Placed(posts, p) && Apart(p) && !p.terminated
    ensures Apart(Accept(posts, p)) <==> !RunThrows(posts, p, Run)
  {
    var counted, task := p.(taskCounter := p.taskCounter + 1), p.taskCounter;
    assert forall v: nat, t: Task :: RunsOn(counted, v, t) <==> RunsOn(p, v, t);
    match FirstIdle(counted, 0)
    case Some(w) =>
      ExecuteApart(posts, counted, w, task);
      assert RunsOn(Accept(posts, p), w, task);
      SettleAdds(p.settled, task, Uncloneable);
    case None =>
      assert forall v: nat, t: Task :: RunsOn(Accept(posts, p), v, t) <==> RunsOn(p, v, t);
  }

  /** An event puts a task in two places if and only if it is a run that throws; a waiting task that cannot be posted
      later stays with the worker alone. */
  lemma NextOnePlaceIff(posts: Posts, p: Pool, e: Event)
    requires Inv(posts, p) && Enabled(p, e) && OnePlace(p)
    ensures OnePlace(Next(posts, p, e)) <==> !RunThrows(posts, p, e)
  {
    EventKeeps(posts, p, e);
    OnePlaceIffApart(posts, Next(posts, p, e));
    match e
    case Run =>
      if !p.terminated { AcceptApartIff(posts, p); }
    case Message(w, error) =>
      var outcome := if error then Failed else Resolved;
      ReleaseKeeps(posts, p, w, outcome);
      ReleaseApart(posts, p, w, outcome);
      ProcessApart(posts, Released(p, e));
    case Error(w, replacement) =>
      ReleaseKeeps(posts, p, w, Errored);
      ReleaseApart(posts, p, w, Errored);
      ReplaceApart(Release(p, w, Errored), w, replacement);
      ProcessApart(posts, Released(p, e));
    case Terminate =>
      TerminateSettles(posts, p);
      assert forall v: nat, t: Task :: RunsOn(Next(posts, p, e), v, t) <==> RunsOn(p, v, t);
    case TerminateDone =>
      assert forall v: nat, t: Task :: RunsOn(Next(posts, p, e), v, t) <==> RunsOn(p, v, t);
  }

  lemma {:induction false} OnePlaceUntil(posts: Posts, size: nat, states: seq<Pool>, events: seq<Event>, n: nat)
    requires IsRun(posts, size, states, events) && n < |states|
    requires forall k :: 0 <= k < n ==> !RunThrows(posts, states[k], events[k])
    ensures OnePlace(states[n])
  {
    if n == 0 {
      assert SettledTasks<Outcome>([]) == [];
    } else {
      OnePlaceUntil(posts, size, states, events, n - 1);
      EveryRunKeeps(posts, size, states, events, n - 1);
      NextOnePlaceIff(posts, states[n - 1], events[n - 1]);
    }
  }

  /** In a run every accepted task is in exactly one place, in every state, if and only if no run() hands a task that
      cannot be posted straight to an idle worker. */
  lemma OnePlaceIff(posts: Posts, size: nat, states: seq<Pool>, events: seq<Event>)
    requires IsRun(posts, size, states, events)
    ensures (forall k :: 0 <= k < |states| ==> OnePlace(states[k]))
        <==> (forall k :: 0 <= k < |events| ==> !RunThrows(posts, states[k], events[k]))
  {
    if forall k :: 0 <= k < |states| ==> OnePlace(states[k]) {
      forall k | 0 <= k < |events| ensures !RunThrows(posts, states[k], events[k]) {
        EveryRunKeeps(posts, size, states, events, k);
        assert OnePlace(states[k]) && OnePlace(states[k + 1]);
        NextOnePlaceIff(posts, states[k], events[k]);
      }
    }
    if forall k :: 0 <= k < |events| ==> !RunThrows(posts, states[k], events[k]) {
      forall k | 0 <= k < |states| ensures OnePlace(states[k]) {
        OnePlaceUntil(posts, size, states, events, k);
      }
    }
  }

  /** Where tasks are placed as in every run, all tasks are delivered or in one other place if and only if every task on
      a worker can be posted. */
  lemma DeliveredIffPosts(posts: Posts, p: Pool)
    requires Placed(posts, p)
    ensures Delivered(p) <==> forall w: nat, t: Task :: RunsOn(p, w, t) ==> posts(t)
  {
    if Delivered(p) {
      forall w: nat, t: Task | RunsOn(p, w, t) ensures posts(t) {
        assert t in p.posted;
      }
    }
  }

  /** An event starts at most one task, which is then on a worker. */
  lemma EventStarts(posts: Posts, p: Pool, e: Event)
    requires Inv(posts, p) && Enabled(p, e)
    ensures p.started <= Next(posts, p, e).started
    ensures forall t: Task :: t in Next(posts, p, e).started && t !in p.started
                ==> exists w :: RunsOn(Next(posts, p, e), w, t)
  {
    var p' := Next(posts, p, e);
    match e
    case Run =>
      if !p.terminated {
        match FirstIdle(p.(taskCounter := p.taskCounter + 1), 0)
        case Some(w) => assert RunsOn(p', w, p.taskCounter);
        case None =>
      }
    case Message(_, _) => ProcessStarts(posts, Released(p, e));
    case Error(_, _) => ProcessStarts(posts, Released(p, e));
    case Terminate =>
    case TerminateDone =>
  }

  lemma ProcessStarts(posts: Posts, p: Pool)
    ensures var p' := ProcessQueue(posts, p);
      p.started <= p'.started && forall t: Task :: t in p'.started && t !in p.started ==> exists w :: RunsOn(p', w, t)
  {
    if p.queue != [] && !p.terminated && FirstIdle(p, 0).Some? {
      assert RunsOn(ProcessQueue(posts, p), FirstIdle(p, 0).value, p.queue[0]);
    }
  }

  lemma {:induction false} StartedStays(posts: Posts, size: nat, states: seq<Pool>, events: seq<Event>, k: nat, n: nat)
    requires IsRun(posts, size, states, events) && k <= n < |states|
    ensures states[k].started <= states[n].started
  {
    if k < n {
      StartedStays(posts, size, states, events, k, n - 1);
      EveryRunKeeps(posts, size, states, events, n - 1);
      EventStarts(posts, states[n - 1], events[n - 1]);
    }
  }

  lemma {:induction false} DeliveredStarts(
      posts: Posts, size: nat, states: seq<Pool>, events: seq<Event>, n: nat, t: Task)
    requires IsRun(posts, size, states, events) && n < |states|
    requires forall k :: 0 <= k <= n ==> Delivered(states[k])
    requires t in states[n].started
    ensures posts(t)
  {
    if n == 0 {
    } else {
      EveryRunKeeps(posts, size, states, events, n);
      EveryRunKeeps(posts, size, states, events, n - 1);
      if t in states[n - 1].started {
        DeliveredStarts(posts, size, states, events, n - 1, t);
      } else {
        EventStarts(posts, states[n - 1], events[n - 1]);
        DeliveredIffPosts(posts, states[n]);
      }
    }
  }

  /** In a run every task on a worker has been posted to it, in every state, if and only if every task ever handed to a
      worker can be posted. */
  lemma RunDeliversIff(posts: Posts, size: nat, states: seq<Pool>, events: seq<Event>)
    requires IsRun(posts, size, states, events)
    ensures (forall k :: 0 <= k < |states| ==> Delivered(states[k]))
        <==> forall t: Task :: t in states[|events|].started ==> posts(t)
  {
    var n := |events|;
    if forall k :: 0 <= k < |states| ==> Delivered(states[k]) {
      forall t: Task | t in states[n].started ensures posts(t) {
        DeliveredStarts(posts, size, states, events, n, t);
      }
    }
    if forall t: Task :: t in states[n].started ==> posts(t) {
      forall k | 0 <= k < |states| ensures Delivered(states[k]) {
        EveryRunKeeps(posts, size, states, events, k);
        StartedStays(posts, size, states, events, k, n);
        DeliveredIffPosts(posts, states[k]);
      }
    }
  }

  /** So if every task can be posted, in every state of every run each accepted task is in exactly one place, and
      delivered if that is a worker. */
  lemma EveryRunDelivers(posts: Posts, size: nat, states: seq<Pool>, events: seq<Event>, k: nat)
    requires IsRun(posts, size, states, events) && k < |states| && forall t :: posts(t)
    ensures Delivered(states[k])
  {
    RunDeliversIff(posts, size, states, events);
  }

  // ---------------------------------------------------------------- how tasks are settled

  /** In state p event e settles task t with outcome o. */
  ghost predicate Settles(posts: Posts, p: Pool, e: Event, t: Task, o: Outcome) {
    match o
    case Resolved => e.Message? && !e.error && RunsOn(p, e.w, t)
    case Failed => e.Message? && e.error && RunsOn(p, e.w, t)
    case Errored => e.Error? && RunsOn(p, e.w, t) && t !in SettledTasks(p.settled)
    case Terminated => e.Terminate? && t in p.queue
    case Uncloneable =>
      e.Run? && !p.terminated && t == p.taskCounter && !posts(t) && exists w :: w in p.workers && !Busy(p, w)
  }

  lemma SettleRecords(settled: seq<Settlement<Outcome>>, task: Task, outcome: Outcome, t: Task, o: Outcome)
    ensures Settlement(t, o) in Settle(settled, task, outcome)
        <==> Settlement(t, o) in settled || (t == task && o == outcome && t !in SettledTasks(settled))
  {
  }

  lemma ReleaseSettles(posts: Posts, p: Pool, w: nat, outcome: Outcome, t: Task, o: Outcome)
    requires Inv(posts, p) && w in p.info
    ensures Settlement(t, o) in Release(p, w, outcome).settled
        <==> Settlement(t, o) in p.settled || (RunsOn(p, w, t) && o == outcome && t !in SettledTasks(p.settled))
  {
    if p.info[w].currentTask.Some? {
      SettleRecords(p.settled, p.info[w].currentTask.value, outcome, t, o);
    }
  }

  lemma RunSettles(posts: Posts, p: Pool, t: Task, o: Outcome)
    requires Inv(posts, p) && !p.terminated
    ensures Settlement(t, o) in Accept(posts, p).settled
        <==> Settlement(t, o) in p.settled || (o == Uncloneable && Settles(posts, p, Run, t, o))
  {
    var counted, task := p.(taskCounter := p.taskCounter + 1), p.taskCounter;
    FirstIdleIs(counted, 0);
    assert forall w: nat :: Busy(counted, w) <==> Busy(p, w);
    SettleRecords(p.settled, task, Uncloneable, t, o);
  }

  lemma TerminateRecords(posts: Posts, p: Pool, t: Task, o: Outcome)
    ensures Settlement(t, o) in Next(posts, p, Terminate).settled
        <==> Settlement(t, o) in p.settled || (o == Terminated && t in p.queue)
  {
    var rejected := RejectAll(p.queue);
    if t in p.queue {
      var i :| 0 <= i < |p.queue| && p.queue[i] == t;
      assert rejected[i] == Settlement(t, Terminated);
    }
  }

  lemma NextSettles(posts: Posts, p: Pool, e: Event, t: Task, o: Outcome)
    requires Inv(posts, p) && Enabled(p, e)
    ensures Settlement(t, o) in Next(posts, p, e).settled
        <==> Settlement(t, o) in p.settled || Settles(posts, p, e, t, o)
  {
    match e
    case Run =>
      if !p.terminated { RunSettles(posts, p, t, o); }
    case Message(w, error) =>
      ReleaseSettles(posts, p, w, if error then Failed else Resolved, t, o);
      assert RunsOn(p, w, t) ==> t in p.posted && t !in SettledTasks(p.settled);
    case Error(w, replacement) =>
      ReleaseSettles(posts, p, w, Errored, t, o);
    case Terminate => TerminateRecords(posts, p, t, o);
    case TerminateDone =>
  }

  /** In every run a task is settled with an outcome if and only if an event settled it so: as resolved or failed if the
      worker it was on sent a result or an error, as errored if that worker failed, as terminated if terminate found it
      waiting, and as uncloneable if run could not post it to the idle worker it found. */
  lemma {:induction false} SettledAs(posts: Posts, size: nat, states: seq<Pool>, events: seq<Event>, n: nat, t: Task,
                                     o: Outcome)
    requires IsRun(posts, size, states, events) && n < |states|
    ensures Settlement(t, o) in states[n].settled
        <==> exists k :: 0 <= k < n && Settles(posts, states[k], events[k], t, o)
  {
    if n == 0 {
    } else {
      SettledAs(posts, size, states, events, n - 1, t, o);
      EveryRunKeeps(posts, size, states, events, n - 1);
      NextSettles(posts, states[n - 1], events[n - 1], t, o);
    }
  }

  /** A worker that holds a task which was never posted to it holds it until the worker itself fails. */
  lemma StuckUntilError(posts: Posts, p: Pool, e: Event, w: nat, task: Task)
    requires Inv(posts, p) && Enabled(p, e) && RunsOn(p, w, task) && !posts(task)
    ensures RunsOn(Next(posts, p, e), w, task) <==> !(e.Error? && e.w == w)
  {
    assert Busy(p, w);
    match e
    case Run => FirstIdleIs(p.(taskCounter := p.taskCounter + 1), 0);
    case Message(v, error) =>
      assert v != w;
      ProcessLeaves(posts, Released(p, e), w, task);
    case Error(v, replacement) =>
      if v == w {
        ProcessBringsNot(posts, Released(p, e), w, task);
      } else {
        ProcessLeaves(posts, Released(p, e), w, task);
      }
    case Terminate =>
    case TerminateDone =>
  }

  lemma ProcessLeaves(posts: Posts, p: Pool, w: nat, task: Task)
    requires RunsOn(p, w, task) && Busy(p, w)
    ensures RunsOn(ProcessQueue(posts, p), w, task)
  {
    FirstIdleIs(p, 0);
  }

  lemma ProcessBringsNot(posts: Posts, p: Pool, w: nat, task: Task)
    requires task !in p.queue && !RunsOn(p, w, task)
    ensures !RunsOn(ProcessQueue(posts, p), w, task)
  {
  }

  /** terminate settles the queued tasks and no other. It leaves every accepted task settled if and only if no worker
      holds an unsettled one; where each task is in one place, if and only if no worker is busy. */
  lemma TerminateSettlesIff(posts: Posts, p: Pool)
    requires Inv(posts, p)
    ensures var all := SettledTasks(Next(posts, p, Terminate).settled);
      && (forall t :: t in all <==> t in SettledTasks(p.settled) || t in p.queue)
      && ((forall t: Task :: t < p.taskCounter ==> t in all)
          <==> forall w: nat, t: Task :: RunsOn(p, w, t) ==> t in SettledTasks(p.settled))
      && (OnePlace(p) ==> ((forall t: Task :: t < p.taskCounter ==> t in all) <==> forall w: nat :: !Busy(p, w)))
  {
    TerminateSettles(posts, p);
    forall w: nat, t: Task | RunsOn(p, w, t) ensures Busy(p, w) {
    }
    forall w: nat | Busy(p, w) ensures exists t: Task :: RunsOn(p, w, t) {
      assert RunsOn(p, w, p.info[w].currentTask.value);
    }
  }
}
