/** The thread pool: submitters, workers and stop, interleaved step by step. */
module ThreadPool {
  import opened Values

  /** A task is known by its place in the order of submission. */
  type Task = nat

  datatype Worker =
    | Outside             // about to take the lock
    | Waiting             // blocked on the condition, without the lock
    | Awake               // holds the lock, the wait condition was true
    | Running(task: Task) // without the lock
    | Returned

  datatype Pool = Pool(
    submitted: nat,
    queue: seq<Task>,
    started: seq<Task>,
    done: seq<Task>,
    stop: bool,
    holder: Option<nat>,
    workers: seq<Worker>,
    joined: nat,
    /** How many tasks were submitted when a worker last decided to return. */
    lastExit: nat)

  function NewPool(n: nat): Pool {
    Pool(0, [], [], [], false, None, seq(n, _ => Outside), 0, 0)
  }

  datatype Event =
    | Submit
    | SetStop
    | Join
    | Enter(w: nat)  // take the lock, first or after waiting, and evaluate the wait condition
    | Decide(w: nat) // return, or take the first task; either way release the lock
    | Finish(w: nat)

  function At(p: Pool, w: nat, state: Worker): Pool
    requires w < |p.workers|
  {
    p.(workers := p.workers[w := state])
  }

  /** An event that is not possible changes nothing.  The stop flag is set without the lock, so
      it may change between the wait condition and the decision. */
  function Step(p: Pool, e: Event): Pool {
    match e
    case Submit =>
      if p.holder.Some? then p
      else p.(submitted := p.submitted + 1, queue := p.queue + [p.submitted])
    case SetStop => p.(stop := true)
    case Join =>
      if p.stop && p.joined < |p.workers| && p.workers[p.joined] == Returned then p.(joined := p.joined + 1)
      else p
    case Enter(w) =>
      if w >= |p.workers| || p.holder.Some? || !(p.workers[w].Outside? || p.workers[w].Waiting?) then p
      else if p.stop || p.queue != [] then At(p.(holder := Some(w)), w, Awake)
      else At(p, w, Waiting)
    case Decide(w) =>
      if w >= |p.workers| || p.workers[w] != Awake then p
      else if p.stop && p.queue == [] then At(p.(holder := None, lastExit := p.submitted), w, Returned)
      else if p.queue == [] then p
      else
        At(p.(holder := None, queue := p.queue[1..], started := p.started + [p.queue[0]]), w, Running(p.queue[0]))
    case Finish(w) =>
      if w >= |p.workers| || !p.workers[w].Running? then p
      else At(p.(done := p.done + [p.workers[w].task]), w, Outside)
  }

  function Run(p: Pool, events: seq<Event>): Pool
    decreases events
  {
    if events == [] then p else Run(Step(p, events[0]), events[1..])
  }

  // ---------- The invariant ----------

  function UpTo(n: nat): seq<Task> {
    seq(n, i requires 0 <= i < n => i)
  }

  ghost predicate IsRunning(p: Pool, t: Task) {
    exists w :: 0 <= w < |p.workers| && p.workers[w] == Running(t)
  }

  /** The lock is held by the worker that is awake, and what woke it is still so. */
  ghost predicate LockOk(p: Pool) {
    && (forall w :: 0 <= w < |p.workers| ==> (p.workers[w] == Awake <==> p.holder == Some(w)))
    && (p.holder.Some? ==> p.holder.value < |p.workers| && (p.stop || p.queue != []))
  }

  /** Tasks leave the queue in the order of submission. */
  ghost predicate OrderOk(p: Pool) {
    p.started + p.queue == UpTo(p.submitted)
  }

  /** A started task is running or done, and not both, and neither twice. */
  ghost predicate TasksOk(p: Pool) {
    && (forall w :: 0 <= w < |p.workers| && p.workers[w].Running? ==>
          p.workers[w].task < |p.started| && p.workers[w].task !in p.done)
    && (forall v, w :: 0 <= v < w < |p.workers| && p.workers[v].Running? ==> p.workers[v] != p.workers[w])
    && (forall i :: 0 <= i < |p.done| ==> p.done[i] < |p.started|)
    && (forall i, j :: 0 <= i < j < |p.done| ==> p.done[i] != p.done[j])
    && (forall t :: 0 <= t < |p.started| ==> t in p.done || IsRunning(p, t))
  }

  predicate AllReturned(p: Pool) {
    forall w :: 0 <= w < |p.workers| ==> p.workers[w] == Returned
  }

  /** What the last decision to return saw. */
  ghost predicate ExitOk(p: Pool) {
    && p.lastExit <= |p.started| <= p.submitted
    && (AllReturned(p) ==> |p.started| == p.lastExit)
    && p.joined <= |p.workers|
    && (forall w :: 0 <= w < p.joined ==> p.workers[w] == Returned)
    && (forall w :: 0 <= w < |p.workers| && p.workers[w] == Returned ==> p.stop)
  }

  ghost predicate Inv(p: Pool) {
    LockOk(p) && OrderOk(p) && TasksOk(p) && ExitOk(p)
  }

  lemma {:induction false} NewPoolInv(n: nat)
    ensures Inv(NewPool(n))
  {
  }

  lemma {:induction false} StepKeepsLock(p: Pool, e: Event)
    requires LockOk(p)
    ensures LockOk(Step(p, e))
  {
  }

  lemma {:induction false} StepKeepsOrder(p: Pool, e: Event)
    requires OrderOk(p)
    ensures OrderOk(Step(p, e))
  {
    var p' := Step(p, e);
    if e.Submit? && p' != p {
      assert p'.started + p'.queue == (p.started + p.queue) + [p.submitted];
    } else if p'.started != p.started {
      assert p'.started + p'.queue == p.started + p.queue;
    }
  }

  lemma {:induction false} StartedAreFirst(p: Pool)
    requires OrderOk(p)
    ensures |p.started| + |p.queue| == p.submitted
    ensures forall i :: 0 <= i < |p.started| ==> p.started[i] == i
    ensures p.queue != [] ==> p.queue[0] == |p.started|
  {
    var all := p.started + p.queue;
    assert |all| == p.submitted;
    assert forall i :: 0 <= i < |p.started| ==> p.started[i] == all[i];
    assert p.queue != [] ==> p.queue[0] == all[|p.started|];
  }

  lemma {:induction false} StepKeepsExit(p: Pool, e: Event)
    requires Inv(p)
    ensures ExitOk(Step(p, e))
  {
    StartedAreFirst(p);
    LastExitIsLast(p, e);
  }

  /** Only a decision to return completes the return of all workers. */
  lemma {:induction false} LastExitIsLast(p: Pool, e: Event)
    requires Inv(p)
    ensures AllReturned(Step(p, e)) ==> |Step(p, e).started| == Step(p, e).lastExit
  {
    StartedAreFirst(p);
    var p' := Step(p, e);
    if p'.workers != p.workers && !e.Submit? && !e.SetStop? && !e.Join? {
      assert p'.workers[e.w] != Returned || p'.lastExit == p.submitted;
    }
  }

  lemma {:induction false} StepKeepsTasks(p: Pool, e: Event)
    requires Inv(p)
    ensures TasksOk(Step(p, e))
  {
    forall t | 0 <= t < |Step(p, e).started|
      ensures t in Step(p, e).done || IsRunning(Step(p, e), t)
    {
      StaysAccounted(p, e, t);
    }
    StepKeepsRunning(p, e);
    StepKeepsDone(p, e);
  }

  /** Running tasks are started, not done, and apart. */
  lemma {:induction false} StepKeepsRunning(p: Pool, e: Event)
    requires Inv(p)
    ensures var p' := Step(p, e);
      && (forall w :: 0 <= w < |p'.workers| && p'.workers[w].Running? ==>
            p'.workers[w].task < |p'.started| && p'.workers[w].task !in p'.done)
      && (forall v, w :: 0 <= v < w < |p'.workers| && p'.workers[v].Running? ==> p'.workers[v] != p'.workers[w])
  {
    StartedAreFirst(p);
  }

  lemma {:induction false} StepKeepsDone(p: Pool, e: Event)
    requires Inv(p)
    ensures var p' := Step(p, e);
      && (forall i :: 0 <= i < |p'.done| ==> p'.done[i] < |p'.started|)
      && (forall i, j :: 0 <= i < j < |p'.done| ==> p'.done[i] != p'.done[j])
  {
  }

  lemma {:induction false} StaysAccounted(p: Pool, e: Event, t: Task)
    requires Inv(p) && t < |Step(p, e).started|
    ensures t in Step(p, e).done || IsRunning(Step(p, e), t)
  {
    var p' := Step(p, e);
    StartedAreFirst(p);
    if t == |p.started| {
      assert p'.workers[e.w] == Running(t);
    } else if t in p.done {
      assert t in p'.done;
    } else {
      var w :| 0 <= w < |p.workers| && p.workers[w] == Running(t);
      if p'.workers[w] == Running(t) {
        assert IsRunning(p', t);
      } else {
        assert p'.done == p.done + [t];
      }
    }
  }

  lemma {:induction false} StepKeepsInv(p: Pool, e: Event)
    requires Inv(p)
    ensures Inv(Step(p, e))
  {
    StepKeepsLock(p, e);
    StepKeepsOrder(p, e);
    StepKeepsTasks(p, e);
    StepKeepsExit(p, e);
  }

  lemma {:induction false} RunKeepsInv(p: Pool, events: seq<Event>)
    requires Inv(p)
    ensures Inv(Run(p, events))
    decreases events
  {
    if events != [] {
      StepKeepsInv(p, events[0]);
      RunKeepsInv(Step(p, events[0]), events[1..]);
    }
  }

  // ---------- What holds in every run ----------

  /** Exactly one of the three places a submitted task can be in. */
  ghost predicate InOnePlace(p: Pool, t: Task) {
    && (t in p.queue || IsRunning(p, t) || t in p.done)
    && (t in p.queue ==> !IsRunning(p, t) && t !in p.done)
    && (IsRunning(p, t) ==> t !in p.done)
  }

  /** In every interleaving: each submitted task is queued, running or done, and only one of
      these; tasks start in the order of submission; no task runs twice; and once all workers
      are joined, the tasks that have run are exactly those submitted before the last worker
      decided to return. */
  lemma {:induction false} RunsAreSafe(n: nat, events: seq<Event>)
    ensures var p := Run(NewPool(n), events);
      && (forall t :: 0 <= t < p.submitted ==> InOnePlace(p, t))
      && p.started == UpTo(|p.started|)
      && (forall v, w :: 0 <= v < w < |p.workers| && p.workers[v].Running? ==> p.workers[v] != p.workers[w])
      && (forall i, j :: 0 <= i < j < |p.done| ==> p.done[i] != p.done[j])
      && (p.joined == |p.workers| ==> forall t :: 0 <= t < p.submitted ==> (t in p.done <==> t < p.lastExit))
  {
    NewPoolInv(n);
    RunKeepsInv(NewPool(n), events);
    var p := Run(NewPool(n), events);
    StartedAreFirst(p);
    forall t | 0 <= t < p.submitted
      ensures InOnePlace(p, t)
    {
      PlaceOf(p, t);
    }
    if p.joined == |p.workers| {
      DoneIffBeforeLastExit(p);
    }
  }

  lemma {:induction false} DoneIffBeforeLastExit(p: Pool)
    requires Inv(p) && AllReturned(p)
    ensures forall t :: 0 <= t < p.submitted ==> (t in p.done <==> t < p.lastExit)
  {
    forall t | 0 <= t < p.submitted
      ensures t in p.done <==> t < p.lastExit
    {
      if t < |p.started| {
        assert !IsRunning(p, t);
      }
    }
  }

  lemma {:induction false} PlaceOf(p: Pool, t: Task)
    requires Inv(p) && t < p.submitted
    ensures InOnePlace(p, t)
  {
    StartedAreFirst(p);
    var all := p.started + p.queue;
    assert all[t] == t;
    if t >= |p.started| {
      assert p.queue[t - |p.started|] == t;
    }
    if t in p.queue {
      var i :| 0 <= i < |p.queue| && p.queue[i] == t;
      assert all[|p.started| + i] == |p.started| + i;
    }
  }

  /** A worker decides to return only when the stop flag is set and the queue is empty, and a
      worker that takes a task finds one. */
  lemma {:induction false} DecisionsAreSound(n: nat, events: seq<Event>, w: nat)
    ensures var p := Run(NewPool(n), events);
      w < |p.workers| && p.workers[w] == Awake ==>
        var state := Step(p, Decide(w)).workers[w];
        && (state == Returned <==> p.stop && p.queue == [])
        && (state != Returned ==> p.queue != [] && state == Running(p.queue[0]))
  {
    NewPoolInv(n);
    RunKeepsInv(NewPool(n), events);
  }

  /** Once every worker has returned no task starts any more: later submissions stay queued. */
  lemma {:induction false} LateTasksStayQueued(p: Pool, events: seq<Event>)
    requires Inv(p) && AllReturned(p)
    ensures var p' := Run(p, events);
      AllReturned(p') && p'.started == p.started && p'.done == p.done && p.queue <= p'.queue
    decreases events
  {
    if events != [] {
      StepKeepsInv(p, events[0]);
      LateTasksStayQueued(Step(p, events[0]), events[1..]);
    }
  }

  /** The only worker of a pool sees stop with an empty queue and returns, and then a task is
      submitted. */
  const LATE_SUBMIT := [SetStop, Enter(0), Decide(0), Submit, Join]

  /** All workers are joined and the task is queued forever. */
  lemma {:induction false} LateTaskNeverRuns(events: seq<Event>)
    ensures var p := Run(NewPool(1), LATE_SUBMIT);
      p.joined == |p.workers| && p.submitted == 1 && p.lastExit == 0
    ensures var p' := Run(Run(NewPool(1), LATE_SUBMIT), events);
      0 in p'.queue && 0 !in p'.done
  {
    NewPoolInv(1);
    RunKeepsInv(NewPool(1), LATE_SUBMIT);
    LateRun();
    LateTasksStayQueued(Run(NewPool(1), LATE_SUBMIT), events);
  }

  lemma {:induction false} OneEvent(p: Pool, events: seq<Event>)
    requires events != []
    ensures Run(p, events) == Run(Step(p, events[0]), events[1..])
  {
  }

  lemma {:induction false} LateRun()
    ensures var p := Run(NewPool(1), LATE_SUBMIT);
      && p.joined == |p.workers| && AllReturned(p) && p.submitted == 1 && p.lastExit == 0
      && p.queue == [0] && p.done == []
  {
    var p1 := Step(NewPool(1), SetStop);
    OneEvent(NewPool(1), LATE_SUBMIT);
    var p2 := Step(p1, Enter(0));
    OneEvent(p1, LATE_SUBMIT[1..]);
    var p3 := Step(p2, Decide(0));
    OneEvent(p2, LATE_SUBMIT[1..][1..]);
    var p4 := Step(p3, Submit);
    OneEvent(p3, LATE_SUBMIT[1..][1..][1..]);
    OneEvent(p4, LATE_SUBMIT[1..][1..][1..][1..]);
  }

  // ---------- Progress ----------

  /** A submission into a free pool queues the next task behind the others. */
  lemma {:induction false} SubmittedIsQueued(p: Pool)
    requires p.holder.None?
    ensures Step(p, Submit) == p.(submitted := p.submitted + 1, queue := p.queue + [p.submitted])
  {
  }

  /** Whether or not stop is set, a worker that enters a free pool with a task queued takes the first
      task and finishes it, and the pool is as it was but for that task. */
  lemma {:induction false} WorkerTakesFirst(p: Pool, w: nat)
    requires Inv(p) && p.holder.None? && w < |p.workers| && p.queue != []
    requires p.workers[w].Outside? || p.workers[w].Waiting?
    ensures Step(p, Enter(w)).holder == Some(w)
    ensures Run(p, [Enter(w), Decide(w), Finish(w)]) ==
      p.(queue := p.queue[1..], started := p.started + [p.queue[0]], done := p.done + [p.queue[0]],
         workers := p.workers[w := Outside])
  {
    var p1 := Step(p, Enter(w));
    var p2 := Step(p1, Decide(w));
    RunThree(p, Enter(w), Decide(w), Finish(w));
    assert p1.workers[w] == Awake && p2.workers == p.workers[w := Running(p.queue[0])];
  }

  lemma {:induction false} RunThree(p: Pool, a: Event, b: Event, c: Event)
    ensures Run(p, [a]) == Step(p, a)
    ensures Run(p, [a, b]) == Step(Step(p, a), b)
    ensures Run(p, [a, b, c]) == Step(Step(Step(p, a), b), c)
  {
    OneEvent(p, [a]);
    assert [a][1..] == [] && [a, b][1..] == [b] && [a, b, c][1..] == [b, c] && [b, c][1..] == [c];
    OneEvent(p, [a, b]);
    OneEvent(p, [a, b, c]);
    OneEvent(Step(p, a), [b, c]);
  }

  lemma {:induction false} RunOn(p: Pool, events: seq<Event>, more: seq<Event>)
    ensures Run(p, events + more) == Run(Run(p, events), more)
    decreases events
  {
    if events == [] {
      assert events + more == more;
    } else {
      assert (events + more)[1..] == events[1..] + more;
      RunOn(Step(p, events[0]), events[1..], more);
    }
  }

  /** The same tasks and the same stop flag, and as long as a task is queued a worker is there for it. */
  ghost predicate Follows(p: Pool, p': Pool) {
    && Inv(p') && p'.submitted == p.submitted && p'.stop == p.stop
    && (p'.queue != [] && !AllReturned(p) ==> !AllReturned(p'))
  }

  /** Whoever holds the lock can decide and, with a task, finish it. */
  lemma {:induction false} FreeLock(p: Pool) returns (events: seq<Event>)
    requires Inv(p)
    ensures Follows(p, Run(p, events)) && Run(p, events).holder.None?
    ensures |Run(p, events).queue| <= |p.queue|
  {
    if p.holder.Some? {
      var w := p.holder.value;
      events := [Decide(w)];
      RunThree(p, Decide(w), Submit, Submit);
      StepKeepsInv(p, Decide(w));
      if p.queue != [] {
        assert Run(p, events).workers[w].Running?;
      }
    } else {
      events := [];
    }
  }

  /** Nothing is taken, submitted, stopped or returned. */
  predicate OnlyFinishes(p: Pool, p': Pool) {
    && p'.queue == p.queue && p'.submitted == p.submitted && p'.stop == p.stop && p'.holder == p.holder
    && |p'.workers| == |p.workers|
    && forall w :: 0 <= w < |p.workers| ==> (p'.workers[w] == Returned <==> p.workers[w] == Returned)
  }

  /** The running tasks of the first n workers can be finished. */
  lemma {:induction false} FinishRunning(p: Pool, n: nat) returns (events: seq<Event>)
    requires n <= |p.workers|
    ensures OnlyFinishes(p, Run(p, events))
    ensures forall w :: 0 <= w < n ==> !Run(p, events).workers[w].Running?
  {
    events := [];
    if n > 0 {
      events := FinishRunning(p, n - 1);
      RunOn(p, events, [Finish(n - 1)]);
      RunThree(Run(p, events), Finish(n - 1), Submit, Submit);
      events := events + [Finish(n - 1)];
    }
  }

  /** From a free pool in which nothing runs, the queued tasks can be done one after the other. */
  lemma {:induction false} EmptyQueue(p: Pool) returns (events: seq<Event>)
    requires Inv(p) && p.holder.None? && !AllReturned(p)
    requires forall w :: 0 <= w < |p.workers| ==> !p.workers[w].Running?
    ensures var p' := Run(p, events);
      && Follows(p, p') && p'.holder.None? && p'.queue == []
      && (forall w :: 0 <= w < |p'.workers| ==> !p'.workers[w].Running?)
    decreases |p.queue|
  {
    events := [];
    if p.queue != [] {
      var w :| 0 <= w < |p.workers| && p.workers[w] != Returned;
      assert p.workers[w].Outside? || p.workers[w].Waiting?;
      var one := [Enter(w), Decide(w), Finish(w)];
      WorkerTakesFirst(p, w);
      RunKeepsInv(p, one);
      var p1 := Run(p, one);
      assert p1.workers[w] == Outside;
      var rest := EmptyQueue(p1);
      RunOn(p, one, rest);
      events := one + rest;
    }
  }

  /** No run gets stuck: as long as a worker has not returned, every run can go on, without a further
      submission and without stop, so that all tasks submitted so far are done. */
  lemma {:induction false} TasksCanFinish(n: nat, events: seq<Event>) returns (more: seq<Event>)
    requires !AllReturned(Run(NewPool(n), events))
    ensures var p, p' := Run(NewPool(n), events), Run(NewPool(n), events + more);
      && p'.submitted == p.submitted && p'.stop == p.stop && p'.queue == []
      && (forall t :: 0 <= t < p.submitted ==> t in p'.done)
  {
    NewPoolInv(n);
    RunKeepsInv(NewPool(n), events);
    var p := Run(NewPool(n), events);
    var a := FreeLock(p);
    var p1 := Run(p, a);
    var b := FinishRunning(p1, |p1.workers|);
    var p2 := Run(p1, b);
    RunKeepsInv(p1, b);
    var c: seq<Event> := [];
    if p2.queue != [] {
      c := EmptyQueue(p2);
    }
    RunOn(p, a, b);
    RunOn(p, a + b, c);
    more := a + b + c;
    RunOn(NewPool(n), events, more);
    IdleIsDone(Run(p2, c));
  }

  lemma {:induction false} IdleIsDone(p: Pool)
    requires Inv(p) && p.queue == [] && forall w :: 0 <= w < |p.workers| ==> !p.workers[w].Running?
    ensures forall t :: 0 <= t < p.submitted ==> t in p.done
  {
    StartedAreFirst(p);
  }
}
