/**
  Which steps of the session manager change what: when a task gets which outcome, in which
  order tasks are served, when a submission is accepted, when a worker comes, is asked to end
  and ends, and when the gate, the lock, a queue or an agent changes.
 */
module SessionSteps {
  import opened Sessions
  import opened SessionTasks
  import opened Wrappers

  // ----- which step gives which outcome

  /** The worker that holds the task has processed it, with this end, and closed the window. */
  predicate EndsTask(st: State, e: Event, t: TaskId, end: TaskEnd) {
    && e.AWorker? && e.step == EndTask(end) && e.worker in st.staff.workers
    && st.staff.workers[e.worker].phase.Busy? && st.staff.workers[e.worker].phase.task == t
    && !st.front.WindowOpen(st.staff.workers[e.worker].session)
  }

  /** A stop, a clear or a close has asked the worker of this step to end. */
  predicate IsCancelRequested(st: State, e: Event) {
    e.AWorker? && e.worker in st.staff.workers && st.staff.workers[e.worker].session in st.staff.cancelRequested
  }

  /** A waiting worker takes the task and finds its terminal scope closed. */
  predicate FindsScopeClosed(st: State, e: Event, t: TaskId) {
    && e.AWorker? && e.step == WorkerEvent.Take(true) && e.worker in st.staff.workers
    && st.staff.workers[e.worker].phase.Waiting? && st.staff.workers[e.worker].phase.queue in st.tasks.queues
    && var ts := st.tasks.queues[st.staff.workers[e.worker].phase.queue].tasks;
       ts != [] && ts[0] == t
  }

  /** A stop or a clear, or a clear that has waited for the worker, discards the queue that holds the task. */
  predicate IsDiscarded(st: State, e: Event, t: TaskId) {
    && e.TheManager?
    && match e.operation
       case Stop(s) => st.lock == Free && t in st.tasks.Queued(s)
       case Clear(s) =>
         && st.lock == Free && s !in st.staff.cleanupPending && s !in st.staff.workerOf
         && t in st.tasks.Queued(s)
       case WaitEnds(w, end, newWorker) =>
         && st.lock.Clearing? && st.lock.worker == w && w in st.staff.workers
         && CanEnd(st.staff.workers[w].phase, end) && newWorker !in st.staff.workers
         && t in st.tasks.Queued(st.lock.session)
       case _ => false
  }

  /** A close that has waited for every worker discards the queue that holds the task. */
  predicate IsDiscardedByClose(st: State, e: Event, t: TaskId) {
    && e.TheManager? && e.operation.DiscardNext?
    && st.lock.ClosingWait? && st.lock.waiting == {} && t in st.tasks.Queued(e.operation.session)
  }

  /** The steps that complete a pending future with this outcome */
  predicate Completes(st: State, e: Event, t: TaskId, outcome: Future) {
    match outcome
    case Pending => false
    case Delivered => EndsTask(st, e, t, Returned) && st.accepting && !IsCancelRequested(st, e)
    case Failed =>
      || EndsTask(st, e, t, Raised)
      || (EndsTask(st, e, t, WasCancelled) && !st.accepting)
      || IsDiscardedByClose(st, e, t)
    case Cancelled =>
      || e == TheManager(CallerLeaves(t))
      || FindsScopeClosed(st, e, t)
      || IsDiscarded(st, e, t)
      || (EndsTask(st, e, t, WasCancelled) && st.accepting)
      || (EndsTask(st, e, t, Returned) && (!st.accepting || IsCancelRequested(st, e)))
  }

  predicate IsPending(x: Tasks, t: TaskId) {
    t in x.futures && x.futures[t] == Pending
  }

  /** What a step makes of a pending future: it is completed as `Completes` says, and otherwise stays pending. */
  predicate CompletedRight(st: State, e: Event, t: TaskId, x': Tasks) {
    && t in x'.futures
    && forall outcome :: outcome != Pending ==> (x'.futures[t] == outcome <==> Completes(st, e, t, outcome))
  }

  lemma WorkersCompleteRight(st: State, w: WorkerId, e: WorkerEvent, t: TaskId)
    requires IsPending(st.tasks, t)
    ensures CompletedRight(st, AWorker(w, e), t, WorkerStep(st, w, e).tasks)
  {
    hide WorkerStep, CompletedRight;
    if w !in st.staff.workers {
      NobodyCompletesRight(st, w, e, t);
    } else {
      var s := st.staff.workers[w].session;
      match st.staff.workers[w].phase
      case Waiting(q) =>
        WaitingIsWaiting(st, w, e);
        WaitingCompletesRight(st, w, s, q, e, t);
      case Busy(q, u) => BusyCompletesRight(st, w, e, t);
      case _ => NobodyCompletesRight(st, w, e, t);
    }
  }

  lemma NobodyCompletesRight(st: State, w: WorkerId, e: WorkerEvent, t: TaskId)
    requires IsPending(st.tasks, t)
    requires w in st.staff.workers ==> !st.staff.workers[w].phase.Waiting? && !st.staff.workers[w].phase.Busy?
    ensures CompletedRight(st, AWorker(w, e), t, WorkerStep(st, w, e).tasks)
  {
    assert WorkerStep(st, w, e).tasks.futures == st.tasks.futures;
    hide WorkerStep;
  }

  lemma BusyCompletesRight(st: State, w: WorkerId, e: WorkerEvent, t: TaskId)
    requires IsPending(st.tasks, t) && w in st.staff.workers && st.staff.workers[w].phase.Busy?
    ensures CompletedRight(st, AWorker(w, e), t, WorkerStep(st, w, e).tasks)
  {
    hide BusyStep, WaitingStep, Leave, StartWorker, Staff.SetPhase;
  }

  lemma WaitingCompletesRight(st: State, w: WorkerId, s: SessionId, q: QueueId, e: WorkerEvent, t: TaskId)
    requires IsPending(st.tasks, t) && w in st.staff.workers
    requires st.staff.workers[w].session == s && st.staff.workers[w].phase == Waiting(q)
    ensures CompletedRight(st, AWorker(w, e), t, WaitingStep(st, w, s, q, e).tasks)
  {
  }

  lemma OperationsCompleteRight(st: State, e: ManagerEvent, t: TaskId)
    requires IsPending(st.tasks, t) && !e.WaitEnds?
    ensures CompletedRight(st, TheManager(e), t, ManagerStep(st, e).tasks)
  {
    hide ManagerStep, CompletedRight;
    if e.Submit? {
      SubmissionsCompleteNothing(st, e, t);
    } else if e.Stop? || e.Clear? {
      DiscardsCompleteRight(st, e, t);
    } else if e.DiscardNext? || e.CallerLeaves? {
      ClosesCompleteRight(st, e, t);
    } else {
      OthersCompleteNothing(st, e, t);
    }
  }

  lemma DiscardsCompleteRight(st: State, e: ManagerEvent, t: TaskId)
    requires IsPending(st.tasks, t) && (e.Stop? || e.Clear?)
    ensures CompletedRight(st, TheManager(e), t, ManagerStep(st, e).tasks)
  {
    hide SubmitTask, WaitEnded, Staff.Cancel;
  }

  lemma ClosesCompleteRight(st: State, e: ManagerEvent, t: TaskId)
    requires IsPending(st.tasks, t) && (e.DiscardNext? || e.CallerLeaves?)
    ensures CompletedRight(st, TheManager(e), t, ManagerStep(st, e).tasks)
  {
    hide StopSession, ClearSession, SubmitTask, WaitEnded;
  }

  lemma OthersCompleteNothing(st: State, e: ManagerEvent, t: TaskId)
    requires IsPending(st.tasks, t)
    requires !e.Submit? && !e.Stop? && !e.Clear? && !e.DiscardNext? && !e.CallerLeaves? && !e.WaitEnds?
    ensures CompletedRight(st, TheManager(e), t, ManagerStep(st, e).tasks)
  {
    hide StopSession, ClearSession, SubmitTask, WaitEnded;
    assert ManagerStep(st, e).tasks == st.tasks;
    hide ManagerStep;
  }

  lemma SubmissionsCompleteNothing(st: State, e: ManagerEvent, t: TaskId)
    requires IsPending(st.tasks, t) && e.Submit?
    ensures CompletedRight(st, TheManager(e), t, ManagerStep(st, e).tasks)
  {
    assert IsPending(ManagerStep(st, e).tasks, t);
    hide ManagerStep;
  }

  lemma WaitsCompleteRight(st: State, e: ManagerEvent, t: TaskId)
    requires IsPending(st.tasks, t) && e.WaitEnds?
    ensures CompletedRight(st, TheManager(e), t, ManagerStep(st, e).tasks)
  {
  }

  lemma NextCompletesRight(st: State, e: Event, t: TaskId)
    requires IsPending(st.tasks, t)
    ensures CompletedRight(st, e, t, Next(st, e).tasks)
  {
    hide WorkerStep, ManagerStep, InboxStep, CompletedRight;
    match e
    case AWorker(w, step) => WorkersCompleteRight(st, w, step, t);
    case TheManager(op) =>
      if op.WaitEnds? {
        WaitsCompleteRight(st, op, t);
      } else {
        OperationsCompleteRight(st, op, t);
      }
    case AtInbox(access) => InboxCompletesNothing(st, access, t);
  }

  lemma InboxCompletesNothing(st: State, e: InboxEvent, t: TaskId)
    requires IsPending(st.tasks, t)
    ensures CompletedRight(st, AtInbox(e), t, InboxStep(st, e).tasks)
  {
    InboxOnlyFront(st, e);
    hide InboxStep;
  }

  lemma NewFuturesArePending(st: State, e: Event, t: TaskId)
    requires t !in st.tasks.futures
    ensures t in Next(st, e).tasks.futures ==> IsPending(Next(st, e).tasks, t)
  {
    hide WorkerStep, ManagerStep, InboxStep;
    match e
    case AWorker(w, step) => WorkersAddNoFuture(st, w, step, t);
    case TheManager(op) => OperationsAddPending(st, op, t);
    case AtInbox(access) => InboxOnlyFront(st, access);
  }

  lemma WorkersAddNoFuture(st: State, w: WorkerId, e: WorkerEvent, t: TaskId)
    requires t !in st.tasks.futures
    ensures t !in WorkerStep(st, w, e).tasks.futures
  {
    hide BusyStep;
  }

  lemma OperationsAddPending(st: State, e: ManagerEvent, t: TaskId)
    requires t !in st.tasks.futures
    ensures t in ManagerStep(st, e).tasks.futures ==> IsPending(ManagerStep(st, e).tasks, t)
  {
    hide SubmitTask, WaitEnded;
    if e.Submit? {
      SubmitAddsPending(st, e.session, e.task, e.newQueue, e.newWorker, e.matches, t);
    } else if e.WaitEnds? {
      if e.worker in st.staff.workers {
        WaitAddsNoFuture(
          st, e.worker, WaitForShutdown(st.staff.workers[e.worker].phase, e.end), e.newWorker, t);
      }
    }
  }

  lemma SubmitAddsPending(
    st: State, s: SessionId, u: TaskId, newQueue: QueueId, newWorker: WorkerId, matches: bool, t: TaskId)
    requires t !in st.tasks.futures
    ensures
      var x := SubmitTask(st, s, u, newQueue, newWorker, matches).tasks;
      t in x.futures ==> IsPending(x, t)
  {
  }

  lemma WaitAddsNoFuture(st: State, w: WorkerId, result: WaitResult, newWorker: WorkerId, t: TaskId)
    requires t !in st.tasks.futures
    ensures w in st.staff.workers ==> t !in WaitEnded(st, w, result, newWorker).tasks.futures
  {
  }

  /** The step number `i` of the run completes the future with this outcome. */
  ghost predicate CompletedAt(events: seq<Event>, i: nat, t: TaskId, outcome: Future) {
    && i < |events| && IsPending(Run(INITIAL, events[..i]).tasks, t)
    && Completes(Run(INITIAL, events[..i]), events[i], t, outcome)
  }

  /** In every run a future has an outcome if and only if one of the run's steps gave it, as `Completes` says. */
  lemma {:induction false} OutcomesAreExact(events: seq<Event>, t: TaskId, outcome: Future)
    requires outcome != Pending
    ensures
      var x := Run(INITIAL, events).tasks;
      t in x.futures && x.futures[t] == outcome <==> exists i :: CompletedAt(events, i, t, outcome)
    decreases |events|
  {
    hide Next, Completes, IsPending;
    if events != [] {
      var n := |events| - 1;
      var before, last := events[..n], events[n];
      var st := Run(INITIAL, before);
      assert events == before + [last];
      RunOneMore(INITIAL, before, last);
      OutcomesAreExact(before, t, outcome);
      forall i: nat | i < n ensures CompletedAt(before, i, t, outcome) <==> CompletedAt(events, i, t, outcome) {
        assert before[..i] == events[..i];
      }
      assert CompletedAt(events, n, t, outcome) <==> IsPending(st.tasks, t) && Completes(st, last, t, outcome) by {
        assert events[..n] == before;
      }
      OutcomeOfStep(st, last, t, outcome);
      CompletedEarlierOrNow(before, events, n, t, outcome);
    }
  }

  lemma CompletedEarlierOrNow(before: seq<Event>, events: seq<Event>, n: nat, t: TaskId, outcome: Future)
    requires |before| == n && |events| == n + 1
    requires forall i: nat :: i < n ==> (CompletedAt(before, i, t, outcome) <==> CompletedAt(events, i, t, outcome))
    ensures (exists i :: CompletedAt(events, i, t, outcome)) <==>
            (exists i :: CompletedAt(before, i, t, outcome)) || CompletedAt(events, n, t, outcome)
  {
    hide Run, Completes, IsPending;
    if i: nat :| CompletedAt(events, i, t, outcome) {
      assert i < n ==> CompletedAt(before, i, t, outcome);
    }
    if i: nat :| CompletedAt(before, i, t, outcome) {
      assert CompletedAt(events, i, t, outcome);
    }
  }

  lemma OutcomeOfStep(st: State, e: Event, t: TaskId, outcome: Future)
    requires outcome != Pending
    ensures
      var x, x' := st.tasks, Next(st, e).tasks;
      t in x'.futures && x'.futures[t] == outcome <==>
        (t in x.futures && x.futures[t] == outcome) || (IsPending(x, t) && Completes(st, e, t, outcome))
  {
    hide Next, Completes;
    if t !in st.tasks.futures {
      NewFuturesArePending(st, e, t);
    } else if IsPending(st.tasks, t) {
      NextCompletesRight(st, e, t);
    } else {
      StepSettlesOnce(st, e, t);
    }
  }

  lemma StepSettlesOnce(st: State, e: Event, t: TaskId)
    ensures SameOutcome(st.tasks, Next(st, e).tasks, t)
  {
    FuturesSettleOnce(st, [e], t);
    assert [e][1..] == [];
  }

  lemma RunOneMore(st: State, events: seq<Event>, last: Event)
    ensures Run(st, events + [last]) == Next(Run(st, events), last)
  {
    RunAppend(st, events, [last]);
    assert [last][1..] == [];
  }

  // ----- what no step of a worker changes

  /** No place is forgotten, no queue is mapped, and the lock and the pending shutdowns are left alone. */
  predicate IsFramed(st: State, st': State) {
    && st.tasks.places.Keys <= st'.tasks.places.Keys && st'.tasks.queueOf.Keys <= st.tasks.queueOf.Keys
    && st'.lock == st.lock && st'.staff.shutdownPending == st.staff.shutdownPending
  }

  lemma WorkersKeepFrame(st: State, w: WorkerId, e: WorkerEvent)
    ensures IsFramed(st, WorkerStep(st, w, e))
  {
    hide WaitingStep, Leave, BusyStep, Outcome;
    if w in st.staff.workers {
      var s := st.staff.workers[w].session;
      match st.staff.workers[w].phase
      case Waiting(q) => WaitingKeepsFrame(st, w, s, q, e);
      case Leaving(q, t, skipped) =>
        if e.LeaveTask? {
          LeaveKeepsFrame(st, w, s, q, t, skipped, e.raised);
        }
      case _ =>
    }
  }

  lemma WaitingKeepsFrame(st: State, w: WorkerId, s: SessionId, q: QueueId, e: WorkerEvent)
    requires w in st.staff.workers
    ensures IsFramed(st, WaitingStep(st, w, s, q, e))
  {
  }

  lemma LeaveKeepsFrame(st: State, w: WorkerId, s: SessionId, q: QueueId, t: TaskId, skipped: bool, raised: bool)
    requires w in st.staff.workers
    ensures IsFramed(st, Leave(st, w, s, q, t, skipped, raised))
  {
  }

  // ----- the order in which tasks are served

  /** The queue holds the first task before the second. */
  ghost predicate Precedes(x: Tasks, q: QueueId, first: TaskId, second: TaskId) {
    q in x.queues && exists i, j ::
      0 <= i < j < |x.queues[q].tasks| && x.queues[q].tasks[i] == first && x.queues[q].tasks[j] == second
  }

  /** What a step does to the tasks of a queue: nothing, or one comes last, or the first goes, or all go */
  predicate MovesInOrder(x: Tasks, x': Tasks, q: QueueId)
    requires q in x.queues
  {
    && q in x'.queues
    && var ts, ts' := x.queues[q].tasks, x'.queues[q].tasks;
       || ts' == ts
       || (ts' != [] && ts'[..|ts'| - 1] == ts && ts'[|ts'| - 1] !in x.places)
       || (ts != [] && ts' == ts[1..])
       || ts' == []
  }

  lemma WorkersMoveInOrder(st: State, w: WorkerId, e: WorkerEvent, q: QueueId)
    requires q in st.tasks.queues
    ensures MovesInOrder(st.tasks, WorkerStep(st, w, e).tasks, q)
  {
    if w in st.staff.workers && st.staff.workers[w].phase.Waiting? {
      WaitingIsWaiting(st, w, e);
      WaitingMovesInOrder(st, w, st.staff.workers[w].session, st.staff.workers[w].phase.queue, e, q);
      hide WorkerStep, MovesInOrder;
    } else {
      OthersMoveNothing(st, w, e);
      hide WorkerStep;
    }
  }

  lemma WaitingMovesInOrder(st: State, w: WorkerId, s: SessionId, v: QueueId, e: WorkerEvent, q: QueueId)
    requires q in st.tasks.queues && w in st.staff.workers
    ensures MovesInOrder(st.tasks, WaitingStep(st, w, s, v, e).tasks, q)
  {
    hide Staff.SetPhase, Staff.Forget;
  }

  lemma OthersMoveNothing(st: State, w: WorkerId, e: WorkerEvent)
    requires w in st.staff.workers ==> !st.staff.workers[w].phase.Waiting?
    ensures WorkerStep(st, w, e).tasks.queues == st.tasks.queues
  {
    hide BusyStep, WaitingStep, Staff.SetPhase, Staff.Forget;
  }

  lemma SubmissionsMoveInOrder(st: State, e: ManagerEvent, q: QueueId)
    requires q in st.tasks.queues && e.Submit? && Consistent(st.tasks)
    ensures MovesInOrder(st.tasks, ManagerStep(st, e).tasks, q)
  {
    if e.task !in st.tasks.futures {
      NewTaskIsNowhere(st.tasks, e.task);
    }
    hide Consistent, MovesInOrder, Tasks.Put, Tasks.EnsureQueue;
    PutMovesInOrder(st.tasks, e.session, e.task, e.newQueue, q);
  }

  lemma PutMovesInOrder(x: Tasks, s: SessionId, t: TaskId, newQueue: QueueId, q: QueueId)
    requires q in x.queues
    ensures MovesInOrder(x, x, q)
    ensures
      var x1 := x.EnsureQueue(s, newQueue);
      t !in x.places && newQueue !in x.queues && x1.HasQueue(s) ==> MovesInOrder(x, x1.Put(s, t), q)
  {
  }

  lemma WaitsMoveInOrder(st: State, e: ManagerEvent, q: QueueId)
    requires q in st.tasks.queues && e.WaitEnds?
    ensures MovesInOrder(st.tasks, ManagerStep(st, e).tasks, q)
  {
  }

  lemma OperationsMoveInOrder(st: State, e: ManagerEvent, q: QueueId)
    requires q in st.tasks.queues && !e.Submit? && !e.WaitEnds?
    ensures MovesInOrder(st.tasks, ManagerStep(st, e).tasks, q)
  {
    hide SubmitTask, WaitEnded;
  }

  lemma NextMovesInOrder(st: State, e: Event, q: QueueId)
    requires Invariant(st) && q in st.tasks.queues
    ensures MovesInOrder(st.tasks, Next(st, e).tasks, q)
  {
    hide WorkerStep, ManagerStep, InboxStep, MovesInOrder, Invariant;
    match e
    case AWorker(w, step) => WorkersMoveInOrder(st, w, step, q);
    case TheManager(op) =>
      if op.Submit? {
        InvariantParts(st);
        SubmissionsMoveInOrder(st, op, q);
      } else if op.WaitEnds? {
        WaitsMoveInOrder(st, op, q);
      } else {
        OperationsMoveInOrder(st, op, q);
      }
    case AtInbox(access) => InboxMovesNothing(st, access, q);
  }

  lemma InboxMovesNothing(st: State, e: InboxEvent, q: QueueId)
    requires q in st.tasks.queues
    ensures MovesInOrder(st.tasks, InboxStep(st, e).tasks, q)
  {
    InboxOnlyFront(st, e);
    hide InboxStep;
  }

  lemma MoveKeepsOrder(x: Tasks, x': Tasks, q: QueueId, first: TaskId, second: TaskId)
    requires Consistent(x) && q in x.queues && MovesInOrder(x, x', q) && Precedes(x, q, first, second)
    ensures Precedes(x', q, first, second) || first !in x'.queues[q].tasks
  {
    var ts, ts' := x.queues[q].tasks, x'.queues[q].tasks;
    var i, j :| 0 <= i < j < |ts| && ts[i] == first && ts[j] == second;
    if ts' != [] && ts'[..|ts'| - 1] == ts {
      assert ts'[i] == ts[i] && ts'[j] == ts[j];
    } else if ts' == ts[1..] && i > 0 {
      assert ts'[i - 1] == first && ts'[j - 1] == second;
    }
  }
  /** A task that was put in a queue is known for ever. */
  lemma PlacesStay(st: State, e: Event)
    ensures st.tasks.places.Keys <= Next(st, e).tasks.places.Keys
  {
    hide WorkerStep, ManagerStep, InboxStep;
    match e
    case AWorker(w, step) => WorkersKeepFrame(st, w, step);
    case TheManager(op) =>
      if op.Submit? {
        SubmissionsKeepPlaces(st, op);
      } else {
        ManagerAcceptsOnlySubmissions(st, op);
      }
    case AtInbox(access) => InboxOnlyFront(st, access);
  }

  lemma SubmissionsKeepPlaces(st: State, e: ManagerEvent)
    requires e.Submit?
    ensures st.tasks.places.Keys <= ManagerStep(st, e).tasks.places.Keys
  {
    hide Front.Steer, Staff.CreateWorker;
  }

  /** The task was put in a queue and waits in this one no more. */
  predicate HasLeft(x: Tasks, q: QueueId, t: TaskId)
    requires q in x.queues
  {
    t in x.places && t !in x.queues[q].tasks
  }

  lemma StepKeepsOrder(st: State, e: Event, q: QueueId, first: TaskId, second: TaskId)
    requires Invariant(st) && q in st.tasks.queues
    requires Precedes(st.tasks, q, first, second) || HasLeft(st.tasks, q, first)
    ensures q in Next(st, e).tasks.queues
    ensures var x' := Next(st, e).tasks; Precedes(x', q, first, second) || HasLeft(x', q, first)
  {
    var x, x' := st.tasks, Next(st, e).tasks;
    NextMovesInOrder(st, e, q);
    PlacesStay(st, e);
    InvariantParts(st);
    hide Next, Invariant;
    if Precedes(x, q, first, second) {
      MoveKeepsOrder(x, x', q, first, second);
      QueuedIsKnown(x, q, first, second);
    } else {
      MoveKeepsAway(x, x', q, first);
    }
  }

  lemma QueuedIsKnown(x: Tasks, q: QueueId, first: TaskId, second: TaskId)
    requires Consistent(x) && Precedes(x, q, first, second)
    ensures first in x.places && second in x.places && x.places[second] == InQueue(q)
  {
    var i, j :| 0 <= i < j < |x.queues[q].tasks| && x.queues[q].tasks[i] == first && x.queues[q].tasks[j] == second;
    assert first in x.queues[q].tasks && second in x.queues[q].tasks;
  }

  lemma MoveKeepsAway(x: Tasks, x': Tasks, q: QueueId, t: TaskId)
    requires q in x.queues && MovesInOrder(x, x', q) && HasLeft(x, q, t) && t in x'.places
    ensures HasLeft(x', q, t)
  {
    var ts, ts' := x.queues[q].tasks, x'.queues[q].tasks;
    if ts' != [] && ts'[..|ts'| - 1] == ts {
      assert ts' == ts + [ts'[|ts'| - 1]];
    }
  }

  lemma {:induction false} RunKeepsOrder(st: State, events: seq<Event>, q: QueueId, first: TaskId, second: TaskId)
    requires Invariant(st) && q in st.tasks.queues
    requires Precedes(st.tasks, q, first, second) || HasLeft(st.tasks, q, first)
    ensures q in Run(st, events).tasks.queues
    ensures var x' := Run(st, events).tasks; Precedes(x', q, first, second) || HasLeft(x', q, first)
    decreases |events|
  {
    hide Next, Invariant, Precedes, HasLeft;
    if events != [] {
      NextKeepsInvariant(st, events[0]);
      StepKeepsOrder(st, events[0], q, first, second);
      RunKeepsOrder(Next(st, events[0]), events[1..], q, first, second);
    }
  }

  /**
    A session's tasks are served in the order in which they were accepted: no worker ever has
    the second of two tasks of a queue in its hands while the first still waits there.
   */
  lemma TasksAreServedInOrder(events: seq<Event>, more: seq<Event>, q: QueueId, first: TaskId, second: TaskId)
    requires Precedes(Run(INITIAL, events).tasks, q, first, second)
    ensures
      var x := Run(Run(INITIAL, events), more).tasks;
      q in x.queues && (second in x.places && x.places[second].InHands? ==> first !in x.queues[q].tasks)
  {
    hide Run, Precedes, Invariant;
    ReachableIsConsistent(events);
    var st := Run(INITIAL, events);
    assert q in st.tasks.queues by {
      PrecedesInQueue(st.tasks, q, first, second);
    }
    RunKeepsOrder(st, more, q, first, second);
    RunKeepsInvariant(st, more);
    var x := Run(st, more).tasks;
    InvariantParts(Run(st, more));
    if Precedes(x, q, first, second) {
      QueuedIsKnown(x, q, first, second);
    }
  }

  lemma PrecedesInQueue(x: Tasks, q: QueueId, first: TaskId, second: TaskId)
    requires Precedes(x, q, first, second)
    ensures q in x.queues
  {
  }

  // ----- when a submission is accepted

  /** The gate is open, the lock is free, and no worker of the session is still to be shut down. */
  predicate IsAdmitted(st: State, s: SessionId) {
    && st.accepting && st.lock == Free
    && (s in st.staff.shutdownPending ==> st.staff.Finished(st.staff.shutdownPending[s]))
  }

  /** The session is processing a task that this message may join, and the inbox takes it. */
  predicate Joins(st: State, s: SessionId, matches: bool) {
    matches && s in st.front.activeTasks && st.front.HasRoom(s)
  }

  /**
    An admitted submission goes to the inbox if it joins the active task and otherwise to the
    queue if that has room; every other one is rejected. A queued task finds a live worker, and
    a new worker is created exactly if there is none.
   */
  lemma SubmissionsAreAcceptedExactly(
    st: State, s: SessionId, t: TaskId, newQueue: QueueId, newWorker: WorkerId, matches: bool)
    requires Invariant(st) && t !in Accepted(st) && t !in st.tasks.futures
    requires newQueue !in st.tasks.queues && newWorker !in st.staff.workers
    ensures
      var st' := ManagerStep(st, Submit(s, t, newQueue, newWorker, matches));
      && (t in st'.front.steered <==> IsAdmitted(st, s) && Joins(st, s, matches))
      && (t in st'.tasks.places <==>
            IsAdmitted(st, s) && !Joins(st, s, matches) && |st.tasks.Queued(s)| < 8)
      && (newWorker in st'.staff.workers <==> t in st'.tasks.places && !st.staff.HasLiveWorker(s))
  {
    hide Invariant, SubmitTask, IsAdmitted;
    if st.lock == Free {
      if IsAdmitted(st, s) {
        AdmittedAreAcceptedExactly(st, s, t, newQueue, newWorker, matches);
      } else {
        OthersAreRejected(st, s, t, newQueue, newWorker, matches);
      }
    } else {
      ClosedSubmissionAcceptsNothing(st, s, t, newQueue, newWorker, matches);
      assert !IsAdmitted(st, s) by { NotAdmittedWithoutLock(st, s); }
      hide ManagerStep;
    }
  }

  lemma NotAdmittedWithoutLock(st: State, s: SessionId)
    requires st.lock != Free
    ensures !IsAdmitted(st, s)
  {
  }

  lemma OthersAreRejected(
    st: State, s: SessionId, t: TaskId, newQueue: QueueId, newWorker: WorkerId, matches: bool)
    requires !IsAdmitted(st, s) && st.lock == Free
    ensures SubmitTask(st, s, t, newQueue, newWorker, matches) == st
  {
    hide Front.Steer, Tasks.Put, Tasks.EnsureQueue;
  }

  lemma AdmittedAreAcceptedExactly(
    st: State, s: SessionId, t: TaskId, newQueue: QueueId, newWorker: WorkerId, matches: bool)
    requires Invariant(st) && t !in Accepted(st) && IsAdmitted(st, s)
    requires newQueue !in st.tasks.queues && newWorker !in st.staff.workers
    ensures
      var st' := SubmitTask(st, s, t, newQueue, newWorker, matches);
      && (t in st'.front.steered <==> Joins(st, s, matches))
      && (t in st'.tasks.places <==> !Joins(st, s, matches) && |st.tasks.Queued(s)| < 8)
      && (newWorker in st'.staff.workers <==> t in st'.tasks.places && !st.staff.HasLiveWorker(s))
  {
    assert s in st.tasks.queueOf ==> st.tasks.HasQueue(s) by {
      InvariantParts(st);
    }
    hide Invariant, SubmitTask;
    if Joins(st, s, matches) {
      JoiningIsSteered(st, s, t, newQueue, newWorker, matches);
    } else {
      OthersAreQueued(st, s, t, newQueue, newWorker, matches);
    }
  }

  lemma JoiningIsSteered(
    st: State, s: SessionId, t: TaskId, newQueue: QueueId, newWorker: WorkerId, matches: bool)
    requires IsAdmitted(st, s) && Joins(st, s, matches)
    ensures
      var st' := SubmitTask(st, s, t, newQueue, newWorker, matches);
      t in st'.front.steered && st'.tasks == st.tasks && st'.staff.workers == st.staff.workers
  {
    hide Tasks.Put, Tasks.EnsureQueue;
  }

  lemma OthersAreQueued(
    st: State, s: SessionId, t: TaskId, newQueue: QueueId, newWorker: WorkerId, matches: bool)
    requires IsAdmitted(st, s) && !Joins(st, s, matches) && t !in Accepted(st)
    requires newQueue !in st.tasks.queues && newWorker !in st.staff.workers
    requires s in st.tasks.queueOf ==> st.tasks.HasQueue(s)
    ensures
      var st' := SubmitTask(st, s, t, newQueue, newWorker, matches);
      && st'.front == st.front
      && (t in st'.tasks.places <==> |st.tasks.Queued(s)| < 8)
      && (newWorker in st'.staff.workers <==> t in st'.tasks.places && !st.staff.HasLiveWorker(s))
  {
    PutPlaces(st.tasks, s, t, newQueue);
    EnsuredHasQueue(st.tasks, s, newQueue);
    hide Front.Steer, Tasks.Put, Tasks.EnsureQueue;
  }

  lemma EnsuredHasQueue(x: Tasks, s: SessionId, newQueue: QueueId)
    ensures x.EnsureQueue(s, newQueue).HasQueue(s) <==> x.HasQueue(s) || s !in x.queueOf
  {
  }

  // ----- the life of a worker

  /** While a stop waits for a worker, its session has no queue, so it never starts another worker. */
  predicate StopsWithoutQueue(st: State) {
    st.lock.Stopping? ==> st.lock.session !in st.tasks.queueOf
  }

  lemma NextKeepsStops(st: State, e: Event)
    requires Invariant(st) && StopsWithoutQueue(st)
    ensures StopsWithoutQueue(Next(st, e))
  {
    hide Invariant, WorkerStep, ManagerStep, InboxStep;
    match e
    case AWorker(w, step) => WorkersKeepFrame(st, w, step);
    case TheManager(op) =>
      InvariantParts(st);
      ManagerKeepsStops(st, op);
    case AtInbox(access) => InboxOnlyFront(st, access);
  }

  lemma ManagerKeepsStops(st: State, e: ManagerEvent)
    requires Consistent(st.tasks) && StopsWithoutQueue(st)
    ensures StopsWithoutQueue(ManagerStep(st, e))
  {
    if e.Submit? {
      SubmissionsStopNothing(st, e);
      hide ManagerStep;
    } else if e.WaitEnds? {
      WaitsStopNothing(st, e);
      hide ManagerStep;
    } else {
      OperationsKeepStops(st, e);
      hide ManagerStep;
    }
  }

  lemma SubmissionsStopNothing(st: State, e: ManagerEvent)
    requires e.Submit?
    ensures ManagerStep(st, e).lock == st.lock && (st.lock != Free ==> ManagerStep(st, e) == st)
  {
    hide Front.Steer, Tasks.EnsureQueue, Tasks.Put;
  }

  lemma WaitsStopNothing(st: State, e: ManagerEvent)
    requires e.WaitEnds?
    ensures ManagerStep(st, e).lock.Stopping? ==> ManagerStep(st, e) == st
  {
    hide Tasks.Discard, WaitForShutdown, CanEnd;
  }

  lemma OperationsKeepStops(st: State, e: ManagerEvent)
    requires Consistent(st.tasks) && StopsWithoutQueue(st) && !e.Submit? && !e.WaitEnds?
    ensures StopsWithoutQueue(ManagerStep(st, e))
  {
    hide SubmitTask, WaitEnded, Staff.Cancel;
  }

  lemma ReachableStops(events: seq<Event>)
    ensures StopsWithoutQueue(Run(INITIAL, events))
  {
    assert Invariant(INITIAL);
    RunKeepsStops(INITIAL, events);
  }

  lemma {:induction false} RunKeepsStops(st: State, events: seq<Event>)
    requires Invariant(st) && StopsWithoutQueue(st)
    ensures StopsWithoutQueue(Run(st, events))
    decreases |events|
  {
    hide Invariant, Next, StopsWithoutQueue;
    if events != [] {
      NextKeepsInvariant(st, events[0]);
      NextKeepsStops(st, events[0]);
      RunKeepsStops(Next(st, events[0]), events[1..]);
    }
  }

  /** A new worker is not started yet, and nobody has asked it to end. */
  predicate IsNew(y: Staff, w: WorkerId, s: SessionId) {
    w in y.workers && y.workers[w] == Worker(s, Created, false)
  }

  /** A submission under this worker's identity was put in a queue, and its session had no live worker. */
  predicate NeedsWorker(st: State, e: Event, w: WorkerId) {
    && e.TheManager? && e.operation.Submit? && e.operation.newWorker == w
    && e.operation.task !in st.tasks.places && e.operation.task in Next(st, e).tasks.places
    && !st.staff.HasLiveWorker(e.operation.session)
  }

  /** In no run does a worker come into being other than for a queued submission: a stop never restarts one. */
  lemma WorkersComeExactly(events: seq<Event>, e: Event, w: WorkerId)
    requires w !in Run(INITIAL, events).staff.workers
    ensures
      var st := Run(INITIAL, events);
      && (w in Next(st, e).staff.workers <==> NeedsWorker(st, e, w))
      && (w in Next(st, e).staff.workers ==> IsNew(Next(st, e).staff, w, e.operation.session))
  {
    hide Run, Next, NeedsWorker, IsNew, StopsWithoutQueue;
    ReachableIsConsistent(events);
    ReachableStops(events);
    ComesExactly(Run(INITIAL, events), e, w);
  }

  lemma ComesExactly(st: State, e: Event, w: WorkerId)
    requires Invariant(st) && StopsWithoutQueue(st) && w !in st.staff.workers
    ensures w in Next(st, e).staff.workers <==> NeedsWorker(st, e, w)
    ensures w in Next(st, e).staff.workers ==> IsNew(Next(st, e).staff, w, e.operation.session)
  {
    hide Invariant, WorkerStep, ManagerStep, InboxStep, StopsWithoutQueue;
    match e
    case AWorker(v, step) => WorkersOnlyEnd(st, v, step);
    case TheManager(op) =>
      if op.Submit? {
        InvariantParts(st);
        SubmissionsStartWorkers(st, op, w);
      } else if op.WaitEnds? {
        WaitsStartNoWorker(st, op);
        hide NeedsWorker;
        assert !NeedsWorker(st, e, w) by { NoSubmission(st, e, w); }
      } else {
        OperationsStartNoWorker(st, op);
        hide NeedsWorker;
        assert !NeedsWorker(st, e, w) by { NoSubmission(st, e, w); }
      }
    case AtInbox(access) => InboxOnlyFront(st, access);
  }

  lemma NoSubmission(st: State, e: Event, w: WorkerId)
    requires e.TheManager? && !e.operation.Submit?
    ensures !NeedsWorker(st, e, w)
  {
  }

  /** Only this worker changes, and of it only the phase. */
  predicate OnlyPhaseOf(y: Staff, y': Staff, w: WorkerId)
    requires w in y.workers
  {
    && w in y'.workers && y'.workers == y.workers[w := y'.workers[w]]
    && y'.workers[w].session == y.workers[w].session && y'.workers[w].cancelling == y.workers[w].cancelling
  }

  lemma WorkersOnlyEnd(st: State, w: WorkerId, e: WorkerEvent)
    ensures WorkerStep(st, w, e).staff.workers.Keys == st.staff.workers.Keys
    ensures w !in st.staff.workers ==> WorkerStep(st, w, e) == st
    ensures w in st.staff.workers ==> OnlyPhaseOf(st.staff, WorkerStep(st, w, e).staff, w)
  {
    if w in st.staff.workers {
      WorkerOnlyEnds(st, w, e);
    }
    hide WaitingStep, Leave, BusyStep, StartWorker;
  }

  lemma WorkerOnlyEnds(st: State, w: WorkerId, e: WorkerEvent)
    requires w in st.staff.workers
    ensures OnlyPhaseOf(st.staff, WorkerStep(st, w, e).staff, w)
  {
    hide BusyStep, WaitingStep, Leave, Tasks.Settle;
    var s := st.staff.workers[w].session;
    match st.staff.workers[w].phase
    case Waiting(q) => WaitingOnlyEnds(st, w, s, q, e);
    case Leaving(q, t, skipped) =>
      if e.LeaveTask? {
        LeaveOnlyEnds(st, w, s, q, t, skipped, e.raised);
      }
    case _ =>
  }

  lemma WaitingOnlyEnds(st: State, w: WorkerId, s: SessionId, q: QueueId, e: WorkerEvent)
    requires w in st.staff.workers && st.staff.workers[w].phase == Waiting(q)
    ensures OnlyPhaseOf(st.staff, WaitingStep(st, w, s, q, e).staff, w)
    ensures st.staff.workers[w].session == s ==>
      (WaitingStep(st, w, s, q, e).staff.workers[w].phase.Done? <==> Ends(st, AWorker(w, e), w))
  {
    hide Tasks.Settle, Tasks.Take, Tasks.DropIfEmpty;
  }

  lemma LeaveOnlyEnds(st: State, w: WorkerId, s: SessionId, q: QueueId, t: TaskId, skipped: bool, raised: bool)
    requires w in st.staff.workers && st.staff.workers[w].phase == Leaving(q, t, skipped)
    ensures OnlyPhaseOf(st.staff, Leave(st, w, s, q, t, skipped, raised).staff, w)
    ensures st.staff.workers[w].session == s ==>
      (Leave(st, w, s, q, t, skipped, raised).staff.workers[w].phase.Done? <==>
        Ends(st, AWorker(w, LeaveTask(raised)), w))
  {
    hide Tasks.DropIfEmpty, Tasks.Release;
  }

  lemma SubmissionsStartWorkers(st: State, e: ManagerEvent, w: WorkerId)
    requires e.Submit? && w !in st.staff.workers && PlacesConsistent(st.tasks)
    ensures w in ManagerStep(st, e).staff.workers <==> NeedsWorker(st, TheManager(e), w)
    ensures w in ManagerStep(st, e).staff.workers ==> IsNew(ManagerStep(st, e).staff, w, e.session)
  {
    hide Front.Steer, Tasks.EnsureQueue;
    assert e.task !in st.tasks.futures ==> e.task !in st.tasks.places;
    EnsureQueueOnlyMaps(st.tasks, e.session, e.newQueue);
    hide PlacesConsistent;
  }

  lemma WaitsStartNoWorker(st: State, e: ManagerEvent)
    requires e.WaitEnds? && StopsWithoutQueue(st)
    ensures ManagerStep(st, e).staff.workers == st.staff.workers
  {
    hide Tasks.Discard, WaitForShutdown, CanEnd;
  }

  lemma OperationsStartNoWorker(st: State, e: ManagerEvent)
    requires !e.Submit? && !e.WaitEnds?
    ensures ManagerStep(st, e).staff.workers.Keys == st.staff.workers.Keys
  {
    hide SubmitTask, WaitEnded, Tasks.Discard, Tasks.Drain;
  }

  /**
    A worker ends when it starts cancelled or without a queue, when it waits and is idle or
    cancelled, and when it leaves a task by an exception or finds that its session's
    cancellation was requested, unless it skipped that task.
   */
  predicate Ends(st: State, e: Event, w: WorkerId)
    requires w in st.staff.workers
  {
    var s, cancelling := st.staff.workers[w].session, st.staff.workers[w].cancelling;
    && e.AWorker? && e.worker == w
    && match st.staff.workers[w].phase
       case Created => e.step.Start? && (cancelling || !st.tasks.HasQueue(s))
       case Waiting(q) =>
         && q in st.tasks.queues
         && ((e.step.IdleTimeout? && st.tasks.queues[q].tasks == []) || (e.step.CancelWaiting? && cancelling))
       case Leaving(_, _, skipped) =>
         e.step.LeaveTask? && (e.step.raised || (!skipped && s in st.staff.cancelRequested))
       case _ => false
  }

  lemma WorkersEndExactly(st: State, e: Event, w: WorkerId)
    requires st.staff.Unfinished(w)
    ensures w in Next(st, e).staff.workers
    ensures Next(st, e).staff.workers[w].phase.Done? <==> Ends(st, e, w)
  {
    hide WorkerStep, ManagerStep, InboxStep;
    match e
    case AWorker(v, step) =>
      WorkersOnlyEnd(st, v, step);
      if v == w {
        WorkerEndsExactly(st, w, step);
      }
    case TheManager(op) => ManagerKeepsPhases(st, op, w);
    case AtInbox(access) => InboxOnlyFront(st, access);
  }

  lemma WorkerEndsExactly(st: State, w: WorkerId, e: WorkerEvent)
    requires st.staff.Unfinished(w)
    ensures w in WorkerStep(st, w, e).staff.workers
    ensures WorkerStep(st, w, e).staff.workers[w].phase.Done? <==> Ends(st, AWorker(w, e), w)
  {
    hide BusyStep, WaitingStep, Leave, Tasks.Settle;
    var s := st.staff.workers[w].session;
    match st.staff.workers[w].phase
    case Waiting(q) => WaitingOnlyEnds(st, w, s, q, e);
    case Leaving(q, t, skipped) =>
      if e.LeaveTask? {
        LeaveOnlyEnds(st, w, s, q, t, skipped, e.raised);
      }
    case _ =>
  }

  predicate CancelsWorkers(e: ManagerEvent) {
    e.Stop? || e.Clear? || e.IdleStopped?
  }

  lemma ManagerKeepsPhases(st: State, e: ManagerEvent, w: WorkerId)
    requires w in st.staff.workers
    ensures w in ManagerStep(st, e).staff.workers
    ensures ManagerStep(st, e).staff.workers[w].phase == st.staff.workers[w].phase
    ensures ManagerStep(st, e).staff.workers[w].session == st.staff.workers[w].session
    ensures !CancelsWorkers(e) ==> ManagerStep(st, e).staff.workers[w] == st.staff.workers[w]
  {
    if e.Submit? {
      SubmissionsKeepWorkers(st, e, w);
    } else if e.WaitEnds? {
      WaitsKeepWorkers(st, e, w);
    } else if CancelsWorkers(e) {
      CancelsKeepPhases(st, e, w);
    } else {
      OthersKeepWorkers(st, e);
    }
    hide ManagerStep;
  }

  lemma SubmissionsKeepWorkers(st: State, e: ManagerEvent, w: WorkerId)
    requires e.Submit? && w in st.staff.workers
    ensures w in ManagerStep(st, e).staff.workers && ManagerStep(st, e).staff.workers[w] == st.staff.workers[w]
  {
    hide Front.Steer, Tasks.EnsureQueue, Tasks.Put;
  }

  lemma WaitsKeepWorkers(st: State, e: ManagerEvent, w: WorkerId)
    requires e.WaitEnds? && w in st.staff.workers
    ensures w in ManagerStep(st, e).staff.workers && ManagerStep(st, e).staff.workers[w] == st.staff.workers[w]
  {
    hide Tasks.Discard, StopEnds, WaitForShutdown, CanEnd;
    if e.newWorker !in st.staff.workers {
      StopEndsKeepsWorkers(st, e.newWorker, w);
    }
  }

  lemma StopEndsKeepsWorkers(st: State, newWorker: WorkerId, w: WorkerId)
    requires w != newWorker
    ensures forall s, y: Staff :: w in y.workers ==>
      w in StopEnds(st, s, y, newWorker).staff.workers
      && StopEnds(st, s, y, newWorker).staff.workers[w] == y.workers[w]
  {
  }

  lemma OthersKeepWorkers(st: State, e: ManagerEvent)
    requires !e.Submit? && !e.WaitEnds? && !CancelsWorkers(e)
    ensures ManagerStep(st, e).staff.workers == st.staff.workers
  {
    hide SubmitTask, WaitEnded, StopSession, ClearSession, Tasks.Drain;
  }

  lemma CancelsKeepPhases(st: State, e: ManagerEvent, w: WorkerId)
    requires CancelsWorkers(e) && w in st.staff.workers
    ensures w in ManagerStep(st, e).staff.workers
    ensures ManagerStep(st, e).staff.workers[w].phase == st.staff.workers[w].phase
    ensures ManagerStep(st, e).staff.workers[w].session == st.staff.workers[w].session
  {
    hide SubmitTask, WaitEnded, Tasks.Discard, Tasks.Drain;
  }

  /**
    A worker is asked to end by a stop or a clear of its session that gets the lock, unless a
    clear is pending already, and by a close once the idle-cleanup task has stopped.
   */
  predicate IsAskedToEnd(st: State, e: Event, s: SessionId) {
    && e.TheManager?
    && match e.operation
       case Stop(v) => v == s && st.lock == Free
       case Clear(v) => v == s && st.lock == Free && s !in st.staff.cleanupPending
       case IdleStopped => st.lock == ClosingIdle
       case _ => false
  }

  /** These steps cancel the one worker of the session, and request that it takes no further task. */
  lemma AskedToEndExactly(st: State, e: Event, w: WorkerId)
    requires Invariant(st) && st.staff.Unfinished(w)
    ensures w in Next(st, e).staff.workers
    ensures
      var s := st.staff.workers[w].session;
      && (Next(st, e).staff.workers[w].cancelling <==> st.staff.workers[w].cancelling || IsAskedToEnd(st, e, s))
      && (IsAskedToEnd(st, e, s) ==> s in Next(st, e).staff.cancelRequested)
  {
    InvariantParts(st);
    hide Invariant, WorkerStep, ManagerStep, InboxStep;
    match e
    case AWorker(v, step) => WorkersOnlyEnd(st, v, step);
    case TheManager(op) => ManagerAsksExactly(st, op, w);
    case AtInbox(access) => InboxOnlyFront(st, access);
  }

  lemma ManagerAsksExactly(st: State, e: ManagerEvent, w: WorkerId)
    requires StaffConsistent(st.staff) && st.staff.Unfinished(w)
    ensures w in ManagerStep(st, e).staff.workers
    ensures
      var s := st.staff.workers[w].session;
      && (ManagerStep(st, e).staff.workers[w].cancelling <==>
            st.staff.workers[w].cancelling || IsAskedToEnd(st, TheManager(e), s))
      && (IsAskedToEnd(st, TheManager(e), s) ==> s in ManagerStep(st, e).staff.cancelRequested)
  {
    ManagerKeepsPhases(st, e, w);
    if CancelsWorkers(e) {
      CancelsAskExactly(st, e, w);
    }
    hide ManagerStep;
  }

  lemma CancelsAskExactly(st: State, e: ManagerEvent, w: WorkerId)
    requires CancelsWorkers(e) && StaffConsistent(st.staff) && st.staff.Unfinished(w)
    ensures w in ManagerStep(st, e).staff.workers
    ensures
      var s := st.staff.workers[w].session;
      && (ManagerStep(st, e).staff.workers[w].cancelling <==>
            st.staff.workers[w].cancelling || IsAskedToEnd(st, TheManager(e), s))
      && (IsAskedToEnd(st, TheManager(e), s) ==> s in ManagerStep(st, e).staff.cancelRequested)
  {
    hide SubmitTask, WaitEnded, Tasks.Discard, Tasks.Drain;
    assert w in st.staff.workerOf.Values;
    hide StaffConsistent;
  }

  // ----- the gate, and the end of a close

  predicate Opens(st: State, e: Event) {
    e == TheManager(Initialize) && st.lock == Free && !st.accepting && st.finalizer.None?
  }

  predicate Shuts(st: State, e: Event) {
    e == TheManager(Close) && st.lock == Free && !st.closed && st.finalizer.None?
  }

  /** A close has cleaned up every agent, and waited for every worker, itself or through its finaliser. */
  predicate EndsAClose(st: State, e: Event) {
    && st.front.agents == {}
    && ((e == TheManager(CloseReturns) && st.lock == ClosingAgents({}, {}))
        || (e == TheManager(FinalizerEnds) && st.lock == FinalizingAgents({})))
  }

  /**
    The gate opens by an initialisation and shuts by a close, each if nothing is in its way;
    the manager is closed by a close that has left nothing, until it is initialised again.
   */
  lemma GatesMoveExactly(st: State, e: Event)
    requires Invariant(st)
    ensures Next(st, e).accepting <==> Opens(st, e) || (st.accepting && !Shuts(st, e))
    ensures Next(st, e).closed <==> EndsAClose(st, e) || (st.closed && !Opens(st, e))
  {
    assert CloseConsistent(st);
    hide Invariant, WorkerStep, ManagerStep, InboxStep;
    match e
    case AWorker(w, step) => WorkersOnlyFinish(st, w, step);
    case TheManager(op) => ManagerMovesGates(st, op);
    case AtInbox(access) => InboxOnlyFront(st, access);
  }

  lemma ManagerMovesGates(st: State, e: ManagerEvent)
    requires CloseConsistent(st)
    ensures ManagerStep(st, e).accepting <==> Opens(st, TheManager(e)) || (st.accepting && !Shuts(st, TheManager(e)))
    ensures ManagerStep(st, e).closed <==> EndsAClose(st, TheManager(e)) || (st.closed && !Opens(st, TheManager(e)))
  {
    hide SubmitTask, WaitEnded, Tasks.Discard, Tasks.Drain, Staff.Cancel;
    if e.Submit? {
      SubmissionsMoveNoGate(st, e);
      hide ManagerStep;
    } else if e.WaitEnds? {
      WaitsMoveNoGate(st, e);
      hide ManagerStep;
    }
  }

  lemma SubmissionsMoveNoGate(st: State, e: ManagerEvent)
    requires e.Submit?
    ensures ManagerStep(st, e).accepting == st.accepting && ManagerStep(st, e).closed == st.closed
  {
    hide Front.Steer, Tasks.EnsureQueue, Tasks.Put;
  }

  lemma WaitsMoveNoGate(st: State, e: ManagerEvent)
    requires e.WaitEnds?
    ensures ManagerStep(st, e).accepting == st.accepting && ManagerStep(st, e).closed == st.closed
  {
    hide Tasks.Discard;
  }

  // ----- agents

  /** A run of the session, before it opens its window, makes the agent or drops it. */
  predicate IsBeforeWindow(st: State, e: Event, s: SessionId) {
    IsStepOf(st, e, s) && !st.front.WindowOpen(s)
  }

  /** An agent is active from its making to its replacement, or to a cleanup that converged. */
  lemma AgentsMoveExactly(st: State, e: Event, s: SessionId)
    ensures s in Next(st, e).front.agents <==>
      || (IsBeforeWindow(st, e, s) && e.step.MakeAgent?)
      || (s in st.front.agents
          && !(IsBeforeWindow(st, e, s) && e.step.DropAgent?)
          && !(e == TheManager(AgentCleaned(s, true)) && IsCleaning(st, s)))
  {
    hide WorkerStep, ManagerStep, InboxStep;
    match e
    case AWorker(w, step) => WorkersMoveAgents(st, w, step, s);
    case TheManager(op) => ManagerMovesAgents(st, op, s);
    case AtInbox(access) => InboxOnlyFront(st, access);
  }

  lemma WorkersMoveAgents(st: State, w: WorkerId, e: WorkerEvent, s: SessionId)
    ensures s in WorkerStep(st, w, e).front.agents <==>
      || (IsBeforeWindow(st, AWorker(w, e), s) && e.MakeAgent?)
      || (s in st.front.agents && !(IsBeforeWindow(st, AWorker(w, e), s) && e.DropAgent?))
  {
    hide WaitingStep, Leave, Front.Settled;
    if w in st.staff.workers {
      match st.staff.workers[w].phase
      case Waiting(q) => WaitingLeavesAgents(st, w, st.staff.workers[w].session, q, e);
      case Leaving(q, t, skipped) =>
        if e.LeaveTask? {
          LeaveLeavesAgents(st, w, st.staff.workers[w].session, q, t, skipped, e.raised);
        }
      case _ =>
    }
  }

  lemma WaitingLeavesAgents(st: State, w: WorkerId, s: SessionId, q: QueueId, e: WorkerEvent)
    requires w in st.staff.workers
    ensures WaitingStep(st, w, s, q, e).front.agents == st.front.agents
  {
    hide Tasks.Settle, Tasks.Take, Tasks.DropIfEmpty, Staff.SetPhase, Staff.Forget;
  }

  lemma LeaveLeavesAgents(st: State, w: WorkerId, s: SessionId, q: QueueId, t: TaskId, skipped: bool, raised: bool)
    requires w in st.staff.workers
    ensures Leave(st, w, s, q, t, skipped, raised).front.agents == st.front.agents
  {
    hide Tasks.DropIfEmpty, Staff.SetPhase, Staff.Forget;
  }

  lemma ManagerMovesAgents(st: State, e: ManagerEvent, s: SessionId)
    ensures s in ManagerStep(st, e).front.agents <==>
      s in st.front.agents && !(e == AgentCleaned(s, true) && IsCleaning(st, s))
  {
    hide Tasks.Discard, Tasks.Drain, Tasks.Put, Tasks.EnsureQueue, Staff.Cancel, Front.Settled, StopEnds;
    if e.WaitEnds? {
      StopEndsOnlyStaff(st, e.newWorker);
    }
  }

  // ----- pending shutdowns

  /** A wait for the session's worker has timed out, or the caller of a clear has gone. */
  predicate GivesUpWaiting(st: State, e: Event, s: SessionId) {
    && e.TheManager? && e.operation.WaitEnds? && e.operation.worker in st.staff.workers
    && e.operation.newWorker !in st.staff.workers
    && var w, end := e.operation.worker, e.operation.end;
       && CanEnd(st.staff.workers[w].phase, end)
       && match st.lock
          case Stopping(v, x) => v == s && x == w && end.ShieldTimeout?
          case Clearing(v, x) => v == s && x == w && (end.ShieldTimeout? || end == ShieldCancelled(true))
          case ClosingWait(waiting, _) => w in waiting && st.staff.workers[w].session == s && end.ShieldTimeout?
          case _ => false
  }

  /** The worker that was given up on is known to have finished, or the close is over. */
  predicate IsDoneWaiting(st: State, e: Event, s: SessionId) {
    && e.TheManager?
    && match e.operation
       case Submit(v, t, newQueue, newWorker, _) =>
         && v == s && IsAdmitted(st, s) && t !in st.tasks.futures && t !in st.front.steered
         && newQueue !in st.tasks.queues && newWorker !in st.staff.workers
       case PendingCallback(v) =>
         && v == s && s in st.staff.shutdownPending && st.staff.Finished(st.staff.shutdownPending[s])
         && s !in st.staff.cleanupPending
       case DeferredRuns(v) =>
         && v == s && st.lock == Free && s in st.staff.deferredCleanups
         && st.staff.Finished(st.staff.deferredCleanups[s])
       case FinalizerEnds => st.lock == FinalizingAgents({})
       case _ => false
  }

  /** A session is marked as pending shutdown from a wait that was given up to the end of its worker. */
  lemma PendingShutdownsExactly(st: State, e: Event, s: SessionId)
    ensures s in Next(st, e).staff.shutdownPending <==>
      GivesUpWaiting(st, e, s) || (s in st.staff.shutdownPending && !IsDoneWaiting(st, e, s))
  {
    hide WorkerStep, ManagerStep, InboxStep;
    match e
    case AWorker(w, step) => WorkersKeepFrame(st, w, step);
    case TheManager(op) =>
      if op.Submit? {
        SubmissionsMark(st, op, s);
      } else if op.WaitEnds? {
        WaitsMark(st, op, s);
      } else {
        OperationsMark(st, op, s);
      }
    case AtInbox(access) => InboxOnlyFront(st, access);
  }

  lemma SubmissionsMark(st: State, e: ManagerEvent, s: SessionId)
    requires e.Submit?
    ensures s in ManagerStep(st, e).staff.shutdownPending <==>
      s in st.staff.shutdownPending && !IsDoneWaiting(st, TheManager(e), s)
  {
    hide Front.Steer, Tasks.EnsureQueue, Tasks.Put;
  }

  lemma WaitsMark(st: State, e: ManagerEvent, s: SessionId)
    requires e.WaitEnds?
    ensures s in ManagerStep(st, e).staff.shutdownPending <==>
      GivesUpWaiting(st, TheManager(e), s) || s in st.staff.shutdownPending
  {
    hide WaitEnded;
    if e.worker in st.staff.workers && CanEnd(st.staff.workers[e.worker].phase, e.end) {
      var result := WaitForShutdown(st.staff.workers[e.worker].phase, e.end);
      assert result == TimedOut <==> e.end.ShieldTimeout?;
      StoppedMeansFinished(st.staff.workers[e.worker].phase, e.end);
      hide WaitForShutdown;
      EndedWaitMarks(st, e.worker, result, e.newWorker, s);
    }
  }

  lemma EndedWaitMarks(st: State, w: WorkerId, result: WaitResult, newWorker: WorkerId, s: SessionId)
    requires w in st.staff.workers
    ensures
      s in WaitEnded(st, w, result, newWorker).staff.shutdownPending <==>
        || s in st.staff.shutdownPending
        || (match st.lock
            case Stopping(v, x) => v == s && x == w && result == TimedOut
            case Clearing(v, x) => v == s && x == w && result != Stopped
            case ClosingWait(waiting, _) => w in waiting && st.staff.workers[w].session == s && result == TimedOut
            case _ => false)
  {
    hide Tasks.Discard, StopEnds;
    StopEndsMarksNothing(st, newWorker);
  }

  lemma StopEndsMarksNothing(st: State, newWorker: WorkerId)
    ensures forall v, y :: StopEnds(st, v, y, newWorker).staff.shutdownPending == y.shutdownPending
  {
  }

  lemma OperationsMark(st: State, e: ManagerEvent, s: SessionId)
    requires !e.Submit? && !e.WaitEnds?
    ensures s in ManagerStep(st, e).staff.shutdownPending <==>
      s in st.staff.shutdownPending && !IsDoneWaiting(st, TheManager(e), s)
  {
    hide SubmitTask, WaitEnded, Tasks.Discard, Tasks.Drain;
  }

  // ----- the active task of a session

  /** The task that the worker processes or is leaving; one whose scope was closed is skipped and never active. */
  function TaskOf(worker: Worker): Option<TaskId> {
    match worker.phase
    case Busy(_, t) => Some(t)
    case Leaving(_, t, skipped) => if skipped then None else Some(t)
    case _ => None
  }

  ghost predicate IsWorkedOn(y: Staff, s: SessionId, t: TaskId) {
    exists w :: w in y.workers && y.workers[w].session == s && TaskOf(y.workers[w]) == Some(t)
  }

  ghost predicate ActiveConsistent(y: Staff, active: map<SessionId, TaskId>) {
    && (forall s :: s in active ==> IsWorkedOn(y, s, active[s]))
    && (forall w :: w in y.workers && TaskOf(y.workers[w]).Some? ==>
          y.workers[w].session in active && active[y.workers[w].session] == TaskOf(y.workers[w]).value)
  }

  /** In every run a session has an active task exactly while one of its workers is on that task. */
  lemma ActiveTasksExactly(events: seq<Event>, s: SessionId, t: TaskId)
    ensures
      var st := Run(INITIAL, events);
      s in st.front.activeTasks && st.front.activeTasks[s] == t <==> IsWorkedOn(st.staff, s, t)
  {
    hide Run, TaskOf, Invariant;
    assert Invariant(INITIAL) && ActiveConsistent(INITIAL.staff, INITIAL.front.activeTasks) by { InitialIsActive(); }
    RunKeepsActive(INITIAL, events);
  }

  lemma InitialIsActive()
    ensures Invariant(INITIAL) && ActiveConsistent(INITIAL.staff, INITIAL.front.activeTasks)
  {
  }

  lemma {:induction false} RunKeepsActive(st: State, events: seq<Event>)
    requires Invariant(st) && ActiveConsistent(st.staff, st.front.activeTasks)
    ensures ActiveConsistent(Run(st, events).staff, Run(st, events).front.activeTasks)
    decreases |events|
  {
    hide Invariant, Next, ActiveConsistent;
    if events != [] {
      NextKeepsInvariant(st, events[0]);
      NextKeepsActive(st, events[0]);
      RunKeepsActive(Next(st, events[0]), events[1..]);
    }
  }

  lemma NextKeepsActive(st: State, e: Event)
    requires Invariant(st) && ActiveConsistent(st.staff, st.front.activeTasks)
    ensures ActiveConsistent(Next(st, e).staff, Next(st, e).front.activeTasks)
  {
    InvariantParts(st);
    hide Invariant, WorkerStep, ManagerStep, InboxStep, ActiveConsistent;
    match e
    case AWorker(w, step) => WorkersKeepActive(st, w, step);
    case TheManager(op) => ManagerKeepsActive(st, op);
    case AtInbox(access) => InboxOnlyFront(st, access);
  }

  lemma ManagerKeepsActive(st: State, e: ManagerEvent)
    requires ActiveConsistent(st.staff, st.front.activeTasks)
    ensures ActiveConsistent(ManagerStep(st, e).staff, ManagerStep(st, e).front.activeTasks)
  {
    var y, y' := st.staff, ManagerStep(st, e).staff;
    ManagerLeavesActive(st, e);
    forall w | w in y.workers
      ensures w in y'.workers && y'.workers[w].phase == y.workers[w].phase
      ensures y'.workers[w].session == y.workers[w].session
    {
      ManagerKeepsPhases(st, e, w);
    }
    forall w | w in y'.workers && w !in y.workers ensures y'.workers[w].phase == Created {
      NewWorkersAreCreated(st, e, w);
    }
    hide ManagerStep, ActiveConsistent;
    SamePhasesKeepActive(y, y', st.front.activeTasks);
  }

  lemma SamePhasesKeepActive(y: Staff, y': Staff, active: map<SessionId, TaskId>)
    requires ActiveConsistent(y, active)
    requires forall w :: w in y.workers ==>
      w in y'.workers && y'.workers[w].phase == y.workers[w].phase && y'.workers[w].session == y.workers[w].session
    requires forall w :: w in y'.workers && w !in y.workers ==> y'.workers[w].phase == Created
    ensures ActiveConsistent(y', active)
  {
    forall s: SessionId, t: TaskId | IsWorkedOn(y, s, t) ensures IsWorkedOn(y', s, t) {
      var w :| w in y.workers && y.workers[w].session == s && TaskOf(y.workers[w]) == Some(t);
      assert TaskOf(y'.workers[w]) == Some(t);
    }
  }

  lemma ManagerLeavesActive(st: State, e: ManagerEvent)
    ensures ManagerStep(st, e).front.activeTasks == st.front.activeTasks
  {
    hide Tasks.Discard, Tasks.Drain, Tasks.Put, Tasks.EnsureQueue, Staff.Cancel, Front.Settled, StopEnds;
    if e.WaitEnds? {
      StopEndsOnlyStaff(st, e.newWorker);
    }
  }

  lemma NewWorkersAreCreated(st: State, e: ManagerEvent, w: WorkerId)
    requires w !in st.staff.workers && w in ManagerStep(st, e).staff.workers
    ensures ManagerStep(st, e).staff.workers[w].phase == Created
  {
    if e.Submit? {
      NewBySubmission(st, e, w);
    } else if e.WaitEnds? {
      NewByWait(st, e, w);
    } else {
      OperationsStartNoWorker(st, e);
    }
    hide ManagerStep;
  }

  lemma NewBySubmission(st: State, e: ManagerEvent, w: WorkerId)
    requires e.Submit? && w !in st.staff.workers && w in ManagerStep(st, e).staff.workers
    ensures ManagerStep(st, e).staff.workers[w].phase == Created
  {
    hide Front.Steer, Tasks.Put, Tasks.EnsureQueue;
  }

  lemma NewByWait(st: State, e: ManagerEvent, w: WorkerId)
    requires e.WaitEnds? && w !in st.staff.workers && w in ManagerStep(st, e).staff.workers
    ensures ManagerStep(st, e).staff.workers[w].phase == Created
  {
    hide StopEnds, Tasks.Discard, WaitForShutdown, CanEnd;
    StopEndsCreates(st, e.newWorker);
  }

  lemma StopEndsCreates(st: State, newWorker: WorkerId)
    ensures forall s, y: Staff, w :: w !in y.workers && w in StopEnds(st, s, y, newWorker).staff.workers ==>
      StopEnds(st, s, y, newWorker).staff.workers[w].phase == Created
  {
  }

  lemma WorkersKeepActive(st: State, w: WorkerId, e: WorkerEvent)
    requires StaffConsistent(st.staff) && ActiveConsistent(st.staff, st.front.activeTasks)
    ensures ActiveConsistent(WorkerStep(st, w, e).staff, WorkerStep(st, w, e).front.activeTasks)
  {
    WorkersOnlyEnd(st, w, e);
    WorkersOnlyFinish(st, w, e);
    if st.staff.Unfinished(w) {
      ActiveOfWorker(st, w, e);
      hide WorkerStep;
      OneWorkersActive(st.staff, WorkerStep(st, w, e).staff, st.front.activeTasks, w);
    }
    hide WorkerStep;
  }

  /** What becomes of the active tasks when a worker goes from one task, or none, to another, or none */
  function Updated(active: map<SessionId, TaskId>, before: Worker, after: Worker): map<SessionId, TaskId> {
    if TaskOf(after).Some? then active[before.session := TaskOf(after).value]
    else if TaskOf(before).Some? then active - {before.session}
    else active
  }

  /** A worker that is on no task has a session without an active one. */
  lemma NobodyElseIsActive(y: Staff, active: map<SessionId, TaskId>, w: WorkerId)
    requires StaffConsistent(y) && ActiveConsistent(y, active) && y.Unfinished(w) && TaskOf(y.workers[w]) == None
    ensures y.workers[w].session !in active
  {
    assert forall v :: y.Unfinished(v) && y.workers[v].session == y.workers[w].session ==> v == w;
  }

  lemma ActiveOfWorker(st: State, w: WorkerId, e: WorkerEvent)
    requires StaffConsistent(st.staff) && ActiveConsistent(st.staff, st.front.activeTasks) && st.staff.Unfinished(w)
    ensures w in WorkerStep(st, w, e).staff.workers
    ensures
      var st' := WorkerStep(st, w, e);
      st'.front.activeTasks == Updated(st.front.activeTasks, st.staff.workers[w], st'.staff.workers[w])
  {
    var active, worker := st.front.activeTasks, st.staff.workers[w];
    if TaskOf(worker) == None {
      NobodyElseIsActive(st.staff, active, w);
    }
    assert TaskOf(worker).Some? ==> worker.session in active && active[worker.session] == TaskOf(worker).value;
    hide StaffConsistent, ActiveConsistent, WorkerStep, Updated;
    match worker.phase
    case Waiting(q) =>
      WaitingIsWaiting(st, w, e);
      ActiveOfWaiting(st, w, worker.session, q, e);
    case Leaving(q, t, skipped) =>
      LeavingIsLeaving(st, w, e);
      ActiveOfLeaving(st, w, worker.session, q, t, skipped, e.LeaveTask? && e.raised);
    case Busy(q, t) => ActiveOfBusy(st, w, e);
    case _ => ActiveOfCreated(st, w, e);
  }

  lemma LeavingIsLeaving(st: State, w: WorkerId, e: WorkerEvent)
    requires w in st.staff.workers && st.staff.workers[w].phase.Leaving?
    ensures
      var phase := st.staff.workers[w].phase;
      WorkerStep(st, w, e) ==
        if !e.LeaveTask? then st
        else Leave(st, w, st.staff.workers[w].session, phase.queue, phase.task, phase.skipped, e.raised)
    ensures Updated(st.front.activeTasks, st.staff.workers[w], st.staff.workers[w]) ==
      if st.staff.workers[w].phase.skipped then st.front.activeTasks
      else st.front.activeTasks[st.staff.workers[w].session := st.staff.workers[w].phase.task]
  {
    hide Leave;
  }

  lemma ActiveOfBusy(st: State, w: WorkerId, e: WorkerEvent)
    requires w in st.staff.workers && st.staff.workers[w].phase.Busy?
    requires st.staff.workers[w].session in st.front.activeTasks
    requires st.front.activeTasks[st.staff.workers[w].session] == st.staff.workers[w].phase.task
    ensures w in WorkerStep(st, w, e).staff.workers
    ensures
      var st' := WorkerStep(st, w, e);
      st'.front.activeTasks == Updated(st.front.activeTasks, st.staff.workers[w], st'.staff.workers[w])
  {
    BusyLeavesActive(st.front, st.staff.workers[w].session, e);
    hide BusyStep, Outcome, Tasks.Settle;
  }

  lemma ActiveOfCreated(st: State, w: WorkerId, e: WorkerEvent)
    requires w in st.staff.workers && (st.staff.workers[w].phase.Created? || st.staff.workers[w].phase.Done?)
    ensures w in WorkerStep(st, w, e).staff.workers
    ensures
      var st' := WorkerStep(st, w, e);
      st'.front.activeTasks == Updated(st.front.activeTasks, st.staff.workers[w], st'.staff.workers[w])
  {
    hide WaitingStep, Leave, BusyStep;
  }

  lemma BusyLeavesActive(f: Front, s: SessionId, e: WorkerEvent)
    ensures BusyStep(f, s, e).activeTasks == f.activeTasks
  {
  }

  lemma ActiveOfWaiting(st: State, w: WorkerId, s: SessionId, q: QueueId, e: WorkerEvent)
    requires w in st.staff.workers && st.staff.workers[w].phase == Waiting(q) && st.staff.workers[w].session == s
    requires s !in st.front.activeTasks
    ensures w in WaitingStep(st, w, s, q, e).staff.workers
    ensures
      var st' := WaitingStep(st, w, s, q, e);
      st'.front.activeTasks == Updated(st.front.activeTasks, st.staff.workers[w], st'.staff.workers[w])
  {
    hide Tasks.Settle, Tasks.Take, Finish;
    if e.IdleTimeout? || e.CancelWaiting? {
      FinishLeavesActive(st, w, s, q);
    }
  }

  lemma FinishLeavesActive(st: State, w: WorkerId, s: SessionId, q: QueueId)
    requires w in st.staff.workers
    ensures w in Finish(st, w, s, q).staff.workers && TaskOf(Finish(st, w, s, q).staff.workers[w]) == None
    ensures Finish(st, w, s, q).front == st.front
  {
  }

  lemma ActiveOfLeaving(st: State, w: WorkerId, s: SessionId, q: QueueId, t: TaskId, skipped: bool, raised: bool)
    requires w in st.staff.workers && st.staff.workers[w].phase == Leaving(q, t, skipped)
    requires st.staff.workers[w].session == s
    requires if skipped then s !in st.front.activeTasks else s in st.front.activeTasks && st.front.activeTasks[s] == t
    ensures w in Leave(st, w, s, q, t, skipped, raised).staff.workers
    ensures
      var st' := Leave(st, w, s, q, t, skipped, raised);
      st'.front.activeTasks == Updated(st.front.activeTasks, st.staff.workers[w], st'.staff.workers[w])
  {
    hide Tasks.DropIfEmpty, Tasks.Release;
  }

  lemma OneWorkersActive(y: Staff, y': Staff, active: map<SessionId, TaskId>, w: WorkerId)
    requires StaffConsistent(y) && ActiveConsistent(y, active) && y.Unfinished(w) && OnlyPhaseOf(y, y', w)
    ensures ActiveConsistent(y', Updated(active, y.workers[w], y'.workers[w]))
  {
    var worker, active' := y.workers[w], Updated(active, y.workers[w], y'.workers[w]);
    forall v | v in y.workers && y.workers[v].session == worker.session && TaskOf(y.workers[v]).Some? ensures v == w {
      assert y.Unfinished(v);
    }
    hide StaffConsistent;
    forall s | s in active' ensures IsWorkedOn(y', s, active'[s]) {
      if s == worker.session && TaskOf(y'.workers[w]).Some? {
        assert TaskOf(y'.workers[w]) == Some(active'[s]);
      } else {
        var v :| v in y.workers && y.workers[v].session == s && TaskOf(y.workers[v]) == Some(active[s]);
        assert v != w && y'.workers[v] == y.workers[v];
      }
    }
  }

  // ----- requests, clears, queues and the lock

  /** The wait of the lock's holder for this worker ends, in the way that asyncio allows. */
  predicate IsWaitFor(st: State, e: Event, w: WorkerId) {
    && e.TheManager? && e.operation.WaitEnds? && e.operation.worker == w
    && w in st.staff.workers && CanEnd(st.staff.workers[w].phase, e.operation.end)
    && e.operation.newWorker !in st.staff.workers
  }

  /** The wait ended because the worker has finished, and not by a timeout or the caller's cancellation. */
  predicate IsFinishedFor(e: Event)
    requires e.TheManager? && e.operation.WaitEnds?
  {
    !e.operation.end.ShieldTimeout? && e.operation.end != ShieldCancelled(true)
  }

  /** The worker of this step ends after it had begun to wait for tasks. */
  predicate EndsServing(st: State, e: Event, s: SessionId) {
    && e.AWorker? && e.worker in st.staff.workers && st.staff.workers[e.worker].session == s
    && !st.staff.workers[e.worker].phase.Created? && Ends(st, e, e.worker)
  }

  /**
    A cancellation stays requested from the step that asks the session's worker to end until a
    worker of the session ends, or a deferred close does.
   */
  lemma CancelRequestsExactly(st: State, e: Event, s: SessionId)
    ensures s in Next(st, e).staff.cancelRequested <==>
      || (IsAskedToEnd(st, e, s) && s in st.staff.workerOf)
      || (s in st.staff.cancelRequested && !EndsServing(st, e, s)
          && !(e == TheManager(FinalizerEnds) && st.lock == FinalizingAgents({})))
  {
    hide WorkerStep, ManagerStep, InboxStep;
    match e
    case AWorker(w, step) => WorkersWithdrawRequests(st, w, step, s);
    case TheManager(op) => ManagerRequests(st, op, s);
    case AtInbox(access) => InboxOnlyFront(st, access);
  }

  lemma WorkersWithdrawRequests(st: State, w: WorkerId, e: WorkerEvent, s: SessionId)
    ensures s in WorkerStep(st, w, e).staff.cancelRequested <==>
      s in st.staff.cancelRequested && !EndsServing(st, AWorker(w, e), s)
  {
    hide BusyStep, Outcome, Tasks.Settle, Tasks.Take, Tasks.DropIfEmpty, Tasks.Release, Staff.Forget;
    hide WaitingStep, Leave;
    if w in st.staff.workers {
      var v := st.staff.workers[w].session;
      match st.staff.workers[w].phase
      case Waiting(q) => WaitingWithdraws(st, w, v, q, e, s);
      case Leaving(q, t, skipped) =>
        if e.LeaveTask? {
          LeavingWithdraws(st, w, v, q, t, skipped, e.raised, s);
        }
      case _ =>
    }
  }

  lemma WaitingWithdraws(st: State, w: WorkerId, v: SessionId, q: QueueId, e: WorkerEvent, s: SessionId)
    requires w in st.staff.workers && st.staff.workers[w].phase == Waiting(q) && st.staff.workers[w].session == v
    ensures s in WaitingStep(st, w, v, q, e).staff.cancelRequested <==>
      s in st.staff.cancelRequested && !EndsServing(st, AWorker(w, e), s)
  {
    hide Tasks.Settle, Tasks.Take, Tasks.DropIfEmpty;
  }

  lemma LeavingWithdraws(
    st: State, w: WorkerId, v: SessionId, q: QueueId, t: TaskId, skipped: bool, raised: bool, s: SessionId)
    requires w in st.staff.workers && st.staff.workers[w].phase == Leaving(q, t, skipped)
    requires st.staff.workers[w].session == v
    ensures s in Leave(st, w, v, q, t, skipped, raised).staff.cancelRequested <==>
      s in st.staff.cancelRequested && !EndsServing(st, AWorker(w, LeaveTask(raised)), s)
  {
    hide Tasks.DropIfEmpty, Tasks.Release;
  }

  lemma ManagerRequests(st: State, e: ManagerEvent, s: SessionId)
    ensures s in ManagerStep(st, e).staff.cancelRequested <==>
      || (IsAskedToEnd(st, TheManager(e), s) && s in st.staff.workerOf)
      || (s in st.staff.cancelRequested && !(e == FinalizerEnds && st.lock == FinalizingAgents({})))
  {
    if e.Submit? {
      SubmissionsKeepFlags(st, e);
      hide ManagerStep;
    } else if e.WaitEnds? {
      WaitsKeepRequests(st, e);
      hide ManagerStep;
    }
    hide SubmitTask, WaitEnded, Tasks.Discard, Tasks.Drain, Staff.Cancel;
  }

  lemma SubmissionsKeepFlags(st: State, e: ManagerEvent)
    requires e.Submit?
    ensures ManagerStep(st, e).staff.cancelRequested == st.staff.cancelRequested
    ensures ManagerStep(st, e).staff.cleanupPending == st.staff.cleanupPending
  {
    hide Front.Steer, Tasks.EnsureQueue, Tasks.Put;
  }

  lemma WaitsKeepRequests(st: State, e: ManagerEvent)
    requires e.WaitEnds?
    ensures ManagerStep(st, e).staff.cancelRequested == st.staff.cancelRequested
  {
    hide Tasks.Discard, WaitForShutdown, CanEnd;
  }

  /**
    A clear is pending from the step in which it begins to wait for a worker until that worker
    has finished, or the deferred cleanup of the session runs.
   */
  lemma ClearsArePendingExactly(st: State, e: Event, s: SessionId)
    ensures s in Next(st, e).staff.cleanupPending <==>
      || (e == TheManager(Clear(s)) && st.lock == Free && s in st.staff.workerOf)
      || (s in st.staff.cleanupPending
          && !(st.lock.Clearing? && st.lock.session == s && IsWaitFor(st, e, st.lock.worker) && IsFinishedFor(e))
          && !(e == TheManager(DeferredRuns(s)) && IsDoneWaiting(st, e, s)))
  {
    hide WorkerStep, ManagerStep, InboxStep;
    match e
    case AWorker(w, step) => WorkersClearNothing(st, w, step);
    case TheManager(op) => ManagerClears(st, op, s);
    case AtInbox(access) => InboxOnlyFront(st, access);
  }

  lemma WorkersClearNothing(st: State, w: WorkerId, e: WorkerEvent)
    ensures WorkerStep(st, w, e).staff.cleanupPending == st.staff.cleanupPending
  {
    hide BusyStep, Outcome, Tasks.Settle, Tasks.Take, Tasks.DropIfEmpty, Tasks.Release;
  }

  lemma ManagerClears(st: State, e: ManagerEvent, s: SessionId)
    ensures s in ManagerStep(st, e).staff.cleanupPending <==>
      || (e == Clear(s) && st.lock == Free && s in st.staff.workerOf)
      || (s in st.staff.cleanupPending
          && !(st.lock.Clearing? && st.lock.session == s
               && IsWaitFor(st, TheManager(e), st.lock.worker) && IsFinishedFor(TheManager(e)))
          && !(e == DeferredRuns(s) && IsDoneWaiting(st, TheManager(e), s)))
  {
    if e.Submit? {
      SubmissionsKeepFlags(st, e);
      hide ManagerStep;
    } else if e.WaitEnds? {
      WaitsClear(st, e, s);
      hide ManagerStep;
    }
    hide SubmitTask, WaitEnded, Tasks.Discard, Tasks.Drain, Staff.Cancel, IsAdmitted;
  }

  lemma WaitsClear(st: State, e: ManagerEvent, s: SessionId)
    requires e.WaitEnds?
    ensures s in ManagerStep(st, e).staff.cleanupPending <==>
      && s in st.staff.cleanupPending
      && !(st.lock.Clearing? && st.lock.session == s
           && IsWaitFor(st, TheManager(e), st.lock.worker) && IsFinishedFor(TheManager(e)))
  {
    hide WaitEnded;
    if e.worker in st.staff.workers && CanEnd(st.staff.workers[e.worker].phase, e.end) {
      var result := WaitForShutdown(st.staff.workers[e.worker].phase, e.end);
      assert result == Stopped <==> IsFinishedFor(TheManager(e));
      EndedWaitClears(st, e.worker, result, e.newWorker, s);
      hide WaitForShutdown;
    }
  }

  lemma EndedWaitClears(st: State, w: WorkerId, result: WaitResult, newWorker: WorkerId, s: SessionId)
    requires w in st.staff.workers
    ensures s in WaitEnded(st, w, result, newWorker).staff.cleanupPending <==>
      s in st.staff.cleanupPending && !(st.lock == Clearing(s, w) && result == Stopped)
  {
    hide Tasks.Discard, StopEnds;
    assert forall v, y: Staff :: StopEnds(st, v, y, newWorker).staff.cleanupPending == y.cleanupPending by {
      StopEndsClearsNothing(st, newWorker);
    }
  }

  lemma StopEndsClearsNothing(st: State, newWorker: WorkerId)
    ensures forall v, y: Staff :: StopEnds(st, v, y, newWorker).staff.cleanupPending == y.cleanupPending
  {
  }

  /** The operation takes the lock and goes on to wait, or to clean up. */
  predicate TakesLock(st: State, e: Event) {
    && e.TheManager?
    && match e.operation
       case Stop(s) => s in st.staff.workerOf
       case Clear(s) => s !in st.staff.cleanupPending && (s in st.staff.workerOf || s in st.front.agents)
       case Close => !st.closed && st.finalizer.None?
       case DeferredRuns(s) => IsDoneWaiting(st, e, s) && s in st.front.agents
       case FinalizerRuns => st.finalizer.Some? && forall w :: w in st.finalizer.value ==> st.staff.Finished(w)
       case _ => false
  }

  /** What the holder of the lock waits for last has come, in one way or another. */
  predicate ReleasesLock(st: State, e: Event) {
    && e.TheManager?
    && match st.lock
       case Stopping(_, w) => IsWaitFor(st, e, w)
       case Clearing(s, w) => IsWaitFor(st, e, w) && !(IsFinishedFor(e) && s in st.front.agents)
       case CleaningAgent(s) => e.operation == CleanupRaises || (e.operation.AgentCleaned? && e.operation.session == s)
       case ClosingWait(waiting, _) =>
         e.operation.WaitEnds? && e.operation.worker in waiting && IsWaitFor(st, e, e.operation.worker)
         && e.operation.end == ShieldCancelled(true)
       case ClosingAgents(todo, _) => e.operation == CleanupRaises || (e.operation == CloseReturns && todo == {})
       case FinalizingAgents(todo) => e.operation == CleanupRaises || (e.operation == FinalizerEnds && todo == {})
       case _ => false
  }

  /** So the lock is free after a step exactly if nobody took it, or its holder was done with it. */
  lemma LockMovesExactly(st: State, e: Event)
    ensures Next(st, e).lock == Free <==> if st.lock == Free then !TakesLock(st, e) else ReleasesLock(st, e)
  {
    hide WorkerStep, ManagerStep, InboxStep;
    match e
    case AWorker(w, step) => WorkersKeepFrame(st, w, step);
    case TheManager(op) =>
      if op.Submit? {
        SubmissionsStopNothing(st, op);
      } else if op.WaitEnds? {
        WaitsMoveLock(st, op);
      } else {
        OperationsMoveLock(st, op);
      }
    case AtInbox(access) => InboxOnlyFront(st, access);
  }

  lemma WaitsMoveLock(st: State, e: ManagerEvent)
    requires e.WaitEnds?
    ensures ManagerStep(st, e).lock == Free <==> st.lock == Free || ReleasesLock(st, TheManager(e))
  {
    hide WaitEnded;
    if e.worker in st.staff.workers && CanEnd(st.staff.workers[e.worker].phase, e.end) {
      var result := WaitForShutdown(st.staff.workers[e.worker].phase, e.end);
      assert result == Stopped <==> IsFinishedFor(TheManager(e));
      StoppedMeansFinished(st.staff.workers[e.worker].phase, e.end);
      EndedWaitMovesLock(st, e.worker, result, e.newWorker);
      hide WaitForShutdown;
    }
  }

  lemma EndedWaitMovesLock(st: State, w: WorkerId, result: WaitResult, newWorker: WorkerId)
    requires w in st.staff.workers
    ensures WaitEnded(st, w, result, newWorker).lock == Free <==>
      match st.lock
      case Free => true
      case Stopping(_, v) => v == w
      case Clearing(s, v) => v == w && !(result == Stopped && s in st.front.agents)
      case ClosingWait(waiting, _) => w in waiting && result == CallerCancelled
      case _ => false
  {
    hide Tasks.Discard;
  }

  lemma OperationsMoveLock(st: State, e: ManagerEvent)
    requires !e.Submit? && !e.WaitEnds?
    ensures ManagerStep(st, e).lock == Free <==>
      if st.lock == Free then !TakesLock(st, TheManager(e)) else ReleasesLock(st, TheManager(e))
  {
    hide SubmitTask, WaitEnded, Tasks.Discard, Tasks.Drain, Staff.Cancel, IsAdmitted, Front.Drop;
  }

  /** The worker of this step ends with the session's own queue empty. */
  predicate EndsIdle(st: State, e: Event, s: SessionId) {
    && EndsServing(st, e, s) && st.tasks.HasQueue(s) && st.tasks.Queued(s) == []
    && match st.staff.workers[e.worker].phase
       case Waiting(q) => q == st.tasks.queueOf[s]
       case Leaving(q, _, _) => q == st.tasks.queueOf[s]
       case _ => false
  }

  /** A stop, a clear or a close pops the session's queue. */
  predicate Pops(st: State, e: Event, s: SessionId) {
    && e.TheManager?
    && match e.operation
       case Stop(v) => v == s && st.lock == Free
       case Clear(v) => v == s && st.lock == Free && s !in st.staff.cleanupPending && s !in st.staff.workerOf
       case WaitEnds(w, _, _) => st.lock == Clearing(s, w) && IsWaitFor(st, e, w)
       case DiscardNext(v) => v == s && st.lock.ClosingWait? && st.lock.waiting == {}
       case _ => false
  }

  /** A session has a queue from the first task put there until a worker leaves it empty, or it is popped. */
  lemma QueuesAreMappedExactly(st: State, e: Event, s: SessionId)
    requires Invariant(st)
    ensures s in Next(st, e).tasks.queueOf <==>
      || (s in st.tasks.queueOf && !EndsIdle(st, e, s) && !Pops(st, e, s))
      || (e.TheManager? && e.operation.Submit? && e.operation.session == s
          && e.operation.task !in st.tasks.places && e.operation.task in Next(st, e).tasks.places)
  {
    InvariantParts(st);
    assert PlacesConsistent(st.tasks) && (s in st.tasks.queueOf ==> st.tasks.HasQueue(s));
    hide Invariant, WorkerStep, ManagerStep, InboxStep, Consistent, StaffConsistent, HandsConsistent;
    match e
    case AWorker(w, step) => WorkersUnmap(st, w, step, s);
    case TheManager(op) =>
      if op.Submit? {
        SubmissionsMap(st, op, s);
      } else if op.WaitEnds? {
        WaitsUnmap(st, op, s);
      } else {
        OperationsUnmap(st, op, s);
      }
    case AtInbox(access) => InboxOnlyFront(st, access);
  }

  lemma WorkersUnmap(st: State, w: WorkerId, e: WorkerEvent, s: SessionId)
    ensures s in WorkerStep(st, w, e).tasks.queueOf <==> s in st.tasks.queueOf && !EndsIdle(st, AWorker(w, e), s)
  {
    hide BusyStep, Outcome, WaitingStep, Leave;
    if w in st.staff.workers {
      var v := st.staff.workers[w].session;
      match st.staff.workers[w].phase
      case Waiting(q) => WaitingUnmaps(st, w, v, q, e, s);
      case Leaving(q, t, skipped) =>
        if e.LeaveTask? {
          LeavingUnmaps(st, w, v, q, t, skipped, e.raised, s);
        }
      case _ =>
    }
  }

  lemma WaitingUnmaps(st: State, w: WorkerId, v: SessionId, q: QueueId, e: WorkerEvent, s: SessionId)
    requires w in st.staff.workers && st.staff.workers[w].phase == Waiting(q) && st.staff.workers[w].session == v
    ensures s in WaitingStep(st, w, v, q, e).tasks.queueOf <==>
      s in st.tasks.queueOf && !EndsIdle(st, AWorker(w, e), s)
  {
    hide Staff.SetPhase, Staff.Forget;
  }

  lemma LeavingUnmaps(
    st: State, w: WorkerId, v: SessionId, q: QueueId, t: TaskId, skipped: bool, raised: bool, s: SessionId)
    requires w in st.staff.workers && st.staff.workers[w].phase == Leaving(q, t, skipped)
    requires st.staff.workers[w].session == v
    ensures s in Leave(st, w, v, q, t, skipped, raised).tasks.queueOf <==>
      s in st.tasks.queueOf && !EndsIdle(st, AWorker(w, LeaveTask(raised)), s)
  {
    hide Staff.Forget;
  }

  lemma SubmissionsMap(st: State, e: ManagerEvent, s: SessionId)
    requires e.Submit? && PlacesConsistent(st.tasks)
    ensures s in ManagerStep(st, e).tasks.queueOf <==>
      || s in st.tasks.queueOf
      || (e.session == s && e.task !in st.tasks.places && e.task in ManagerStep(st, e).tasks.places)
  {
    assert e.task !in st.tasks.futures ==> e.task !in st.tasks.places;
    hide Front.Steer, PlacesConsistent;
  }

  lemma WaitsUnmap(st: State, e: ManagerEvent, s: SessionId)
    requires e.WaitEnds? && (s in st.tasks.queueOf ==> st.tasks.HasQueue(s))
    ensures s in ManagerStep(st, e).tasks.queueOf <==> s in st.tasks.queueOf && !Pops(st, TheManager(e), s)
  {
    hide Staff.Forget, StopEnds, WaitForShutdown, CanEnd;
    StopEndsOnlyStaff(st, e.newWorker);
  }

  lemma OperationsUnmap(st: State, e: ManagerEvent, s: SessionId)
    requires !e.Submit? && !e.WaitEnds?
    requires s in st.tasks.queueOf ==> st.tasks.HasQueue(s)
    ensures s in ManagerStep(st, e).tasks.queueOf <==> s in st.tasks.queueOf && !Pops(st, TheManager(e), s)
  {
    hide SubmitTask, WaitEnded, Staff.Cancel, Staff.Forget;
  }

  // ----- cleanups

  /** The operation begins to clean up the agent of the session. */
  predicate StartsCleanup(st: State, e: Event, s: SessionId) {
    && e.TheManager? && s in st.front.agents
    && match e.operation
       case Clear(v) => v == s && st.lock == Free && s !in st.staff.cleanupPending && s !in st.staff.workerOf
       case WaitEnds(w, _, _) => st.lock == Clearing(s, w) && IsWaitFor(st, e, w) && IsFinishedFor(e)
       case DeferredRuns(v) => v == s && IsDoneWaiting(st, e, s)
       case Gathered =>
         && st.lock.ClosingWait? && st.lock.waiting == {} && st.tasks.queueOf == map[]
         && forall w :: w in st.lock.timedOut && w in st.staff.workers ==> st.staff.workers[w].session != s
       case FinalizerRuns => st.lock == Free && TakesLock(st, e)
       case _ => false
  }

  /**
    An agent is cleaned up by a clear once its worker has finished, by a close unless the wait
    for its worker timed out, and by the deferred halves of both.
   */
  lemma CleanupsStartExactly(st: State, e: Event, s: SessionId)
    requires !IsCleaning(st, s)
    ensures IsCleaning(Next(st, e), s) <==> StartsCleanup(st, e, s)
  {
    hide WorkerStep, ManagerStep, InboxStep;
    match e
    case AWorker(w, step) => WorkersKeepFrame(st, w, step);
    case TheManager(op) =>
      if op.Submit? {
        SubmissionsStopNothing(st, op);
      } else if op.WaitEnds? {
        WaitsStartCleanup(st, op, s);
      } else {
        OperationsStartCleanup(st, op, s);
      }
    case AtInbox(access) => InboxOnlyFront(st, access);
  }

  lemma WaitsStartCleanup(st: State, e: ManagerEvent, s: SessionId)
    requires e.WaitEnds? && !IsCleaning(st, s)
    ensures IsCleaning(ManagerStep(st, e), s) <==> StartsCleanup(st, TheManager(e), s)
  {
    hide WaitEnded;
    if e.worker in st.staff.workers && CanEnd(st.staff.workers[e.worker].phase, e.end) {
      var result := WaitForShutdown(st.staff.workers[e.worker].phase, e.end);
      assert result == Stopped <==> IsFinishedFor(TheManager(e));
      EndedWaitStartsCleanup(st, e.worker, result, e.newWorker, s);
      hide WaitForShutdown;
    }
  }

  lemma EndedWaitStartsCleanup(st: State, w: WorkerId, result: WaitResult, newWorker: WorkerId, s: SessionId)
    requires w in st.staff.workers && !IsCleaning(st, s)
    ensures IsCleaning(WaitEnded(st, w, result, newWorker), s) <==>
      st.lock == Clearing(s, w) && result == Stopped && s in st.front.agents
  {
    hide Tasks.Discard;
  }

  lemma OperationsStartCleanup(st: State, e: ManagerEvent, s: SessionId)
    requires !e.Submit? && !e.WaitEnds? && !IsCleaning(st, s)
    ensures IsCleaning(ManagerStep(st, e), s) <==> StartsCleanup(st, TheManager(e), s)
  {
    hide SubmitTask, WaitEnded, Tasks.Discard, Tasks.Drain, Staff.Cancel, IsAdmitted, Front.Drop;
  }
}
