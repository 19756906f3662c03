/** The TaskQueue of packages/worker/src/index.ts.

    A task is a number; each call of add brings a new one. What the outside can observe is kept beside the source's
    own fields: the tasks whose function is pending, those started so far, and those whose promise is settled. A task
    function may also throw before its first await; then the task is settled, and the queue processed again, inside
    the loop that started it. */
module TaskQueue {
  import opened Common

  type Task = nat

  datatype Outcome = Resolved | Rejected | Cleared

  datatype Queue = Queue(concurrency: int, running: int, queue: seq<Task>, active: set<Task>,
                         started: seq<Task>, settled: seq<Settlement<Outcome>>)

  /** Whether a task's function throws synchronously. */
  type Throws = Task -> bool

  // ---------------------------------------------------------------- the operations as functions

  function StartHead(throws: Throws, q: Queue): Queue
    requires q.queue != []
  {
    var task := q.queue[0];
    var taken := q.(queue := q.queue[1..], started := q.started + [task]);
    if throws(task) then taken.(settled := q.settled + [Settlement(task, Rejected)])
    else taken.(running := q.running + 1, active := q.active + {task})
  }

  /** _process: start tasks from the head of the queue while fewer than `concurrency` are running. */
  function Pump(throws: Throws, q: Queue): Queue
    decreases |q.queue|
  {
    if q.running < q.concurrency && q.queue != [] then Pump(throws, StartHead(throws, q)) else q
  }

  function Reject(tasks: seq<Task>): (r: seq<Settlement<Outcome>>)
    ensures |r| == |tasks| && forall i :: 0 <= i < |r| ==> r[i] == Settlement(tasks[i], Cleared)
  {
    seq(|tasks|, i requires 0 <= i < |tasks| => Settlement(tasks[i], Cleared))
  }

  datatype Event = Add(task: Task) | Clear | SetConcurrency(value: int) | Complete(task: Task, resolved: bool)

  function Settle(q: Queue, task: Task, resolved: bool): Queue {
    q.(running := q.running - 1, active := q.active - {task},
       settled := q.settled + [Settlement(task, if resolved then Resolved else Rejected)])
  }

  function Next(throws: Throws, q: Queue, e: Event): Queue {
    match e
    case Add(task) => Pump(throws, q.(queue := q.queue + [task]))
    case Clear => q.(queue := [], settled := q.settled + Reject(q.queue))
    case SetConcurrency(value) => Pump(throws, q.(concurrency := if value < 1 then 1 else value))
    case Complete(task, resolved) => Pump(throws, Settle(q, task, resolved))
  }

  lemma {:induction false} PumpFills(throws: Throws, q: Queue)
    ensures var p := Pump(throws, q); (p.queue == [] || p.running >= p.concurrency) && p.concurrency == q.concurrency
    ensures |Pump(throws, q).queue| <= |q.queue|
    decreases |q.queue|
  {
    if q.running < q.concurrency && q.queue != [] {
      PumpFills(throws, StartHead(throws, q));
    }
  }

  // ---------------------------------------------------------------- the class

  class TaskQueue {
    const throws: Throws
    var concurrency: int
    var running: int
    var queue: seq<Task>
    var active: set<Task>
    var started: seq<Task>
    var settled: seq<Settlement<Outcome>>

    ghost function Abs(): Queue
      reads this
    {
      Queue(concurrency, running, queue, active, started, settled)
    }

    constructor (concurrency: Option<int>, throws: Throws)
      ensures this.throws == throws
      ensures Abs() == Queue(if concurrency.Some? then concurrency.value else 5, 0, [], {}, [], [])
    {
      this.throws := throws;
      this.concurrency := if concurrency.Some? then concurrency.value else 5;
      running, queue, active, started, settled := 0, [], {}, [], [];
    }

    method Add(task: Task)
      modifies this
      ensures Abs() == Next(throws, old(Abs()), Event.Add(task))
    {
      queue := queue + [task];
      Process();
    }

    method Clear()
      modifies this
      ensures Abs() == Next(throws, old(Abs()), Event.Clear)
    {
      var tasks := queue;
      queue := [];
      for i := 0 to |tasks|
        invariant Abs() == old(Abs()).(queue := [], settled := old(settled) + Reject(tasks[..i]))
      {
        settled := settled + [Settlement(tasks[i], Cleared)];
        assert Reject(tasks[..i + 1]) == Reject(tasks[..i]) + [Settlement(tasks[i], Cleared)];
      }
      assert tasks[..|tasks|] == tasks;
    }

    method SetConcurrency(value: int)
      modifies this
      ensures Abs() == Next(throws, old(Abs()), Event.SetConcurrency(value))
      ensures concurrency == if value < 1 then 1 else value
    {
      concurrency := if value < 1 then 1 else value;
      PumpFills(throws, Abs());
      Process();
    }

    /** The rest of _runTask when the awaited result of a running task arrives. */
    method Complete(task: Task, resolved: bool)
      modifies this
      ensures Abs() == Next(throws, old(Abs()), Event.Complete(task, resolved))
    {
      settled := settled + [Settlement(task, if resolved then Resolved else Rejected)];
      active := active - {task};
      running := running - 1;
      Process();
    }

    method Process()
      modifies this
      ensures Abs() == Pump(throws, old(Abs()))
      decreases |queue|, 0
    {
      while running < concurrency && |queue| > 0
        invariant Pump(throws, Abs()) == Pump(throws, old(Abs()))
        invariant |queue| <= old(|queue|)
        decreases |queue|
      {
        ghost var before := Abs();
        var task := queue[0];
        queue := queue[1..];
        running := running + 1;
        RunTask(task);
        Repump(throws, before);
        PumpFills(throws, StartHead(throws, before));
      }
    }

    /** _runTask up to its first await. */
    method RunTask(task: Task)
      modifies this
      ensures var starting := old(Abs()).(started := old(started) + [task]);
        Abs() == if throws(task)
                 then Pump(throws, starting.(running := old(running) - 1,
                   settled := old(settled) + [Settlement(task, Rejected)]))
                 else starting.(active := old(active) + {task})
      decreases |queue|, 1
    {
      started := started + [task];
      if throws(task) {
        settled := settled + [Settlement(task, Rejected)];
        running := running - 1;
        Process();
      } else {
        active := active + {task};
      }
    }
  }

  /** Processing the queue again changes nothing. */
  lemma Repump(throws: Throws, q: Queue)
    requires q.running < q.concurrency && q.queue != []
    ensures Pump(throws, Pump(throws, StartHead(throws, q))) == Pump(throws, q)
  {
    PumpFills(throws, StartHead(throws, q));
  }

  // ---------------------------------------------------------------- runs

  /** The queue with its history: the tasks added, in order, and those cleared while they waited. */
  datatype System = System(q: Queue, added: seq<Task>, cleared: set<Task>)

  ghost predicate Enabled(s: System, e: Event) {
    match e
    case Add(task) => task !in s.added
    case Complete(task, _) => task in s.q.active
    case _ => true
  }

  function Advance(throws: Throws, s: System, e: Event): System {
    System(Next(throws, s.q, e),
           if e.Add? then s.added + [e.task] else s.added,
           if e.Clear? then s.cleared + Elements(s.q.queue) else s.cleared)
  }

  /** Each added task is queued, pending or settled, never two of these; it is settled at most once; as many tasks are
      pending as the counter says; and tasks start in the order they were added. */
  ghost predicate Conserved(s: System) {
    && NoDuplicates(s.added)
    && s.q.running == |s.q.active|
    && s.q.started + s.q.queue == Drop(s.added, s.cleared)
    && (forall t :: t in s.cleared ==> t in s.added)
    && NoDuplicates(SettledTasks(s.q.settled))
    && (forall t :: t in s.q.active ==> t in s.q.started && t !in SettledTasks(s.q.settled))
    && (forall t :: t in SettledTasks(s.q.settled) <==> t in s.cleared || (t in s.q.started && t !in s.q.active))
  }

  /** A task waits only if as many are running as may run. */
  ghost predicate WorkConserving(s: System) {
    s.q.queue != [] ==> s.q.running >= s.q.concurrency
  }

  lemma NewToQueue(s: System)
    requires Conserved(s)
    ensures NoDuplicates(s.q.started + s.q.queue)
    ensures forall t :: t in s.q.queue ==>
      t !in s.q.started && t !in s.q.active && t !in s.cleared && t !in SettledTasks(s.q.settled)
  {
    DropDistinct(s.added, s.cleared);
    DropMembers(s.added, s.cleared);
    var all := s.q.started + s.q.queue;
    forall t | t in s.q.queue ensures t !in s.q.started && t !in s.cleared {
      var j :| 0 <= j < |s.q.queue| && s.q.queue[j] == t;
      assert all[|s.q.started| + j] == t;
      assert t in all;
      assert forall i :: 0 <= i < |s.q.started| ==> all[i] == s.q.started[i];
    }
  }

  lemma StartKeeps(throws: Throws, s: System)
    requires Conserved(s) && s.q.queue != []
    ensures Conserved(s.(q := StartHead(throws, s.q)))
  {
    NewToQueue(s);
    var q, task := s.q, s.q.queue[0];
    assert task in q.queue;
    assert q.queue == [task] + q.queue[1..];
    assert q.started + [task] + q.queue[1..] == q.started + q.queue;
    if throws(task) {
      SettledAppend(q.settled, [Settlement(task, Rejected)]);
      assert SettledTasks([Settlement(task, Rejected)]) == [task];
    } else {
      assert |q.active + {task}| == |q.active| + 1;
    }
  }

  lemma {:induction false} PumpKeeps(throws: Throws, s: System)
    requires Conserved(s)
    ensures Conserved(s.(q := Pump(throws, s.q)))
    decreases |s.q.queue|
  {
    if s.q.running < s.q.concurrency && s.q.queue != [] {
      StartKeeps(throws, s);
      PumpKeeps(throws, s.(q := StartHead(throws, s.q)));
    }
  }

  /** Clearing takes exactly the queued tasks out of the order. */
  lemma ClearOrder(s: System)
    requires Conserved(s)
    ensures s.q.started == Drop(s.added, s.cleared + Elements(s.q.queue))
    ensures forall t :: t in s.q.queue ==> t in s.added
  {
    NewToQueue(s);
    var q := s.q;
    DropDrop(s.added, s.cleared, Elements(q.queue));
    DropAppend(q.started, q.queue, Elements(q.queue));
    DropNone(q.started, Elements(q.queue));
    DropAll(q.queue, Elements(q.queue));
    DropMembers(s.added, s.cleared);
    assert forall t :: t in q.queue ==> t in q.started + q.queue;
  }

  lemma ClearSettles(s: System)
    requires Conserved(s)
    ensures SettledTasks(s.q.settled + Reject(s.q.queue)) == SettledTasks(s.q.settled) + s.q.queue
    ensures NoDuplicates(SettledTasks(s.q.settled) + s.q.queue)
  {
    NewToQueue(s);
    var q := s.q;
    SettledAppend(q.settled, Reject(q.queue));
    assert SettledTasks(Reject(q.queue)) == q.queue;
    var all, done := q.started + q.queue, SettledTasks(q.settled);
    assert forall i :: 0 <= i < |q.queue| ==> q.queue[i] == all[|q.started| + i];
    forall i, j | 0 <= i < j < |done + q.queue| ensures (done + q.queue)[i] != (done + q.queue)[j] {
      if i < |done| <= j {
        assert (done + q.queue)[i] in done && (done + q.queue)[j] in q.queue;
      }
    }
  }

  lemma ClearKeeps(throws: Throws, s: System)
    requires Conserved(s)
    ensures Conserved(Advance(throws, s, Clear))
  {
    NewToQueue(s);
    ClearOrder(s);
    ClearSettles(s);
    assert s.q.started + [] == s.q.started;
  }

  lemma SettleKeeps(s: System, task: Task, resolved: bool)
    requires Conserved(s) && task in s.q.active
    ensures Conserved(s.(q := Settle(s.q, task, resolved)))
  {
    var one := Settlement(task, if resolved then Resolved else Rejected);
    SettledAppend(s.q.settled, [one]);
    assert SettledTasks([one]) == [task];
    assert |s.q.active - {task}| == |s.q.active| - 1;
  }

  lemma EventKeeps(throws: Throws, s: System, e: Event)
    requires Conserved(s) && WorkConserving(s) && Enabled(s, e)
    ensures Conserved(Advance(throws, s, e)) && WorkConserving(Advance(throws, s, e))
  {
    match e
    case Add(task) =>
      var s' := s.(q := s.q.(queue := s.q.queue + [task]), added := s.added + [task]);
      PumpKeeps(throws, s');
      PumpFills(throws, s'.q);
    case Clear => ClearKeeps(throws, s);
    case SetConcurrency(value) =>
      var s' := s.(q := s.q.(concurrency := if value < 1 then 1 else value));
      PumpKeeps(throws, s');
      PumpFills(throws, s'.q);
    case Complete(task, resolved) =>
      SettleKeeps(s, task, resolved);
      PumpKeeps(throws, s.(q := Settle(s.q, task, resolved)));
      PumpFills(throws, Settle(s.q, task, resolved));
  }

  function Initial(concurrency: int): System {
    System(Queue(concurrency, 0, [], {}, [], []), [], {})
  }

  function Run(throws: Throws, concurrency: int, events: seq<Event>): System {
    if events == [] then Initial(concurrency)
    else Advance(throws, Run(throws, concurrency, events[..|events| - 1]), events[|events| - 1])
  }

  ghost predicate Possible(throws: Throws, concurrency: int, events: seq<Event>) {
    events != [] ==>
      Possible(throws, concurrency, events[..|events| - 1])
      && Enabled(Run(throws, concurrency, events[..|events| - 1]), events[|events| - 1])
  }

  /** In every run, whatever the initial concurrency: no task is lost or settled twice, tasks start first come first
      served, and no task waits while another may start. */
  lemma {:induction false} EveryRunConserves(throws: Throws, concurrency: int, events: seq<Event>)
    requires Possible(throws, concurrency, events)
    ensures Conserved(Run(throws, concurrency, events)) && WorkConserving(Run(throws, concurrency, events))
  {
    if events == [] {
      assert SettledTasks<Outcome>([]) == [];
    } else {
      var front := events[..|events| - 1];
      EveryRunConserves(throws, concurrency, front);
      EventKeeps(throws, Run(throws, concurrency, front), events[|events| - 1]);
    }
  }

  /** Each added task is in exactly one place. */
  lemma ExactlyOnePlace(throws: Throws, concurrency: int, events: seq<Event>, task: Task)
    requires Possible(throws, concurrency, events)
    ensures var s := Run(throws, concurrency, events);
      && (task in s.added <==> task in s.q.queue || task in s.q.active || task in SettledTasks(s.q.settled))
      && !(task in s.q.queue && task in s.q.active)
      && !(task in s.q.queue && task in SettledTasks(s.q.settled))
      && !(task in s.q.active && task in SettledTasks(s.q.settled))
  {
    EveryRunConserves(throws, concurrency, events);
    var s := Run(throws, concurrency, events);
    NewToQueue(s);
    DropMembers(s.added, s.cleared);
    assert task in s.q.started + s.q.queue <==> task in s.q.started || task in s.q.queue;
  }

  // ---------------------------------------------------------------- how tasks are settled

  /** The outcomes recorded are those the events account for. */
  ghost predicate Outcomes(throws: Throws, events: seq<Event>, q: Queue, cleared: set<Task>) {
    forall t: Task ::
      && (Settlement(t, Resolved) in q.settled <==> Complete(t, true) in events)
      && (Settlement(t, Rejected) in q.settled <==> Complete(t, false) in events || (t in q.started && throws(t)))
      && (Settlement(t, Cleared) in q.settled <==> t in cleared)
  }

  lemma {:induction false} PumpOutcomes(throws: Throws, events: seq<Event>, q: Queue, cleared: set<Task>)
    requires Outcomes(throws, events, q, cleared)
    ensures Outcomes(throws, events, Pump(throws, q), cleared)
    decreases |q.queue|
  {
    if q.running >= q.concurrency || q.queue == [] {
    } else {
      PumpOutcomes(throws, events, StartHead(throws, q), cleared);
    }
  }

  lemma ClearOutcomes(throws: Throws, events: seq<Event>, s: System)
    requires Outcomes(throws, events, s.q, s.cleared)
    ensures var s' := Advance(throws, s, Clear); Outcomes(throws, events + [Clear], s'.q, s'.cleared)
  {
    var rejected := Reject(s.q.queue);
    forall t: Task ensures Settlement(t, Cleared) in rejected <==> t in s.q.queue {
      if t in s.q.queue {
        var i :| 0 <= i < |s.q.queue| && s.q.queue[i] == t;
        assert rejected[i] == Settlement(t, Cleared);
      }
    }
  }

  lemma NextOutcomes(throws: Throws, events: seq<Event>, s: System, e: Event)
    requires Outcomes(throws, events, s.q, s.cleared)
    ensures var s' := Advance(throws, s, e); Outcomes(throws, events + [e], s'.q, s'.cleared)
  {
    match e
    case Add(task) => PumpOutcomes(throws, events + [e], s.q.(queue := s.q.queue + [task]), s.cleared);
    case Clear => ClearOutcomes(throws, events, s);
    case SetConcurrency(value) =>
      PumpOutcomes(throws, events + [e], s.q.(concurrency := if value < 1 then 1 else value), s.cleared);
    case Complete(task, resolved) =>
      PumpOutcomes(throws, events + [e], Settle(s.q, task, resolved), s.cleared);
  }

  /** A clear among the events found the task queued. */
  ghost predicate FoundByClear(throws: Throws, concurrency: int, events: seq<Event>, task: Task) {
    exists n :: 0 <= n < |events| && events[n].Clear? && task in Run(throws, concurrency, events[..n]).q.queue
  }

  lemma {:induction false} ClearedIff(throws: Throws, concurrency: int, events: seq<Event>, task: Task)
    ensures task in Run(throws, concurrency, events).cleared <==> FoundByClear(throws, concurrency, events, task)
  {
    if events == [] {
    } else {
      var m := |events| - 1;
      var front := events[..m];
      ClearedIff(throws, concurrency, front, task);
      forall n | 0 <= n < m ensures front[..n] == events[..n] && front[n] == events[n] {
      }
      if n :| 0 <= n < m && events[n].Clear? && task in Run(throws, concurrency, events[..n]).q.queue {
        assert front[n].Clear? && task in Run(throws, concurrency, front[..n]).q.queue;
      }
    }
  }

  lemma {:induction false} RunOutcomes(throws: Throws, concurrency: int, events: seq<Event>)
    ensures var s := Run(throws, concurrency, events); Outcomes(throws, events, s.q, s.cleared)
  {
    if events == [] {
    } else {
      var front, e := events[..|events| - 1], events[|events| - 1];
      RunOutcomes(throws, concurrency, front);
      NextOutcomes(throws, front, Run(throws, concurrency, front), e);
      assert events == front + [e];
    }
  }

  /** In every run a task has been resolved if and only if its call resolved; rejected if and only if its call rejected,
      or it was started and threw at once; and rejected as cleared if and only if a clear found it waiting. */
  lemma SettledAs(throws: Throws, concurrency: int, events: seq<Event>, task: Task)
    ensures var q := Run(throws, concurrency, events).q;
      && (Settlement(task, Resolved) in q.settled <==> Complete(task, true) in events)
      && (Settlement(task, Rejected) in q.settled
          <==> Complete(task, false) in events || (task in q.started && throws(task)))
      && (Settlement(task, Cleared) in q.settled
          <==> exists n :: 0 <= n < |events| && events[n].Clear? &&
                 task in Run(throws, concurrency, events[..n]).q.queue)
  {
    RunOutcomes(throws, concurrency, events);
    ClearedIff(throws, concurrency, events, task);
  }

  /** An event that leaves a task pending which was not pending before leaves at most `concurrency` running. */
  lemma {:induction false} StartsWithinLimit(throws: Throws, q: Queue)
    ensures var p := Pump(throws, q); p.running > q.running ==> p.running <= p.concurrency
    ensures Pump(throws, q).running >= q.running
    ensures Pump(throws, q).running == q.running ==> Pump(throws, q).active == q.active
    decreases |q.queue|
  {
    if q.running < q.concurrency && q.queue != [] {
      StartsWithinLimit(throws, StartHead(throws, q));
      PumpFills(throws, q);
    }
  }
}
