/**
  The session manager: one worker per session, and the operations that submit, stop, clear,
  initialise and close (`AgentSessionOwner`, `AgentLifecycleOwner`).

  Everything runs in one event loop, so code between two awaits is atomic. `WorkerStep` gives
  the effect of each such piece of a worker, `ManagerStep` that of the operations, which hold
  the lifecycle lock while they wait. `Run` lets all of them interleave in any order.
  An event that is not enabled has no effect.
 */
module Sessions {
  import opened SessionTasks
  import Steering
  import opened Wrappers

  /**
    Where a worker is: created but not started, waiting for a task of its queue, processing
    one, leaving one whose future is settled, or finished. `cancelled` of `Done` is
    `Task.cancelled()`, which holds only of a worker that was cancelled before its first step.
   */
  datatype Phase =
    | Created
    | Waiting(queue: QueueId)
    | Busy(queue: QueueId, task: TaskId)
    | Leaving(queue: QueueId, task: TaskId, skipped: bool)
    | Done(cancelled: bool)

  datatype Worker = Worker(session: SessionId, phase: Phase, cancelling: bool) {
    predicate HoldsTask() {
      phase.Busy? || phase.Leaving?
    }

    predicate UsesQueue() {
      phase.Waiting? || HoldsTask()
    }
  }

  datatype Staff = Staff(
    workerOf: map<SessionId, WorkerId>,                       // `_session_workers`
    workers: map<WorkerId, Worker>,                           // the worker tasks, mapped or not
    cancelRequested: set<SessionId>,
    shutdownPending: map<SessionId, WorkerId>,
    cleanupPending: set<SessionId>,
    deferredCallbacks: set<(SessionId, WorkerId)>,            // done-callbacks of deferred cleanups
    deferredCleanups: map<SessionId, WorkerId>)
  {
    predicate Finished(w: WorkerId) {
      w in workers && workers[w].phase.Done?
    }

    predicate Unfinished(w: WorkerId) {
      w in workers && !workers[w].phase.Done?
    }

    predicate HasLiveWorker(s: SessionId) {
      s in workerOf && Unfinished(workerOf[s])
    }

    function CreateWorker(s: SessionId, w: WorkerId): Staff {
      this.(workerOf := workerOf[s := w], workers := workers[w := Worker(s, Created, false)])
    }

    /** `if self._session_workers.get(session_id) is worker: pop` */
    function Forget(s: SessionId, w: WorkerId): Staff {
      if s in workerOf && workerOf[s] == w then this.(workerOf := workerOf - {s}) else this
    }

    /** `task.cancel()`: it takes effect when a worker next runs, and none on a finished one. */
    function Cancel(ws: set<WorkerId>): Staff {
      this.(workers := map w | w in workers ::
        if w in ws && !workers[w].phase.Done? then workers[w].(cancelling := true) else workers[w])
    }

    function SetPhase(w: WorkerId, phase: Phase): Staff
      requires w in workers
    {
      this.(workers := workers[w := workers[w].(phase := phase)])
    }
  }

  /** The inbox of a session: whether its run window is open, whether it is closed for good, and what waits in it */
  datatype Inbox = Inbox(open: bool, closed: bool, pending: seq<TaskId>)

  const SHUT_INBOX := Inbox(false, true, [])

  function Min(a: nat, b: nat): nat {
    if a < b then a else b
  }

  /**
    What has become of a message that an inbox accepted: it waits in the inbox of a session, or
    was notified as applied, or was handed out by a run that raised before it was notified, or
    was taken out by a cleanup, which drops it; or its inbox was unregistered while its run
    went on, which alone can still take it
   */
  datatype Fate = Waits(session: SessionId) | Applied | Lost | Dropped | Detached

  datatype Front = Front(
    activeTasks: map<SessionId, TaskId>,
    agents: set<SessionId>,                  // `active_agents`
    inboxes: map<SessionId, Inbox>,
    steered: map<TaskId, Fate>)              // history: the submissions that went to an inbox
  {
    predicate WindowOpen(s: SessionId) {
      s in inboxes && inboxes[s].open
    }

    predicate IsShut(s: SessionId) {
      s in inboxes && inboxes[s].closed
    }

    predicate HasRoom(s: SessionId) {
      WindowOpen(s) && |inboxes[s].pending| < Steering.STEERING_QUEUE_MAX_SIZE
    }

    /** `inbox.enqueue`, once it accepts */
    function Steer(s: SessionId, t: TaskId): Front
      requires s in inboxes
    {
      this.(inboxes := inboxes[s := inboxes[s].(pending := inboxes[s].pending + [t])],
            steered := steered[t := Waits(s)])
    }

    /** Of the messages in the inbox the first `applied` are applied and the others meet the given fate. */
    function Settled(s: SessionId, applied: nat, fate: Fate): map<TaskId, Fate>
      requires s in inboxes
    {
      var pending := inboxes[s].pending;
      map t | t in steered ::
        if t !in pending then steered[t] else if t in pending[..Min(applied, |pending|)] then Applied else fate
    }

    function Empty(s: SessionId, inbox: Inbox, applied: nat, fate: Fate): Front
      requires s in inboxes
    {
      this.(inboxes := inboxes[s := inbox], steered := Settled(s, applied, fate))
    }

    /** `inbox.close` */
    function Shut(s: SessionId): Front {
      if s in inboxes then Empty(s, SHUT_INBOX, 0, Dropped) else this
    }

    /** The agent goes, and its session's inbox with it. */
    function Drop(s: SessionId): Front {
      this.(agents := agents - {s}, inboxes := inboxes - {s},
            steered := if s in inboxes then Settled(s, 0, Detached) else steered)
    }
  }

  /** Which operation holds the lifecycle lock, and what it awaits */
  datatype Lock =
    | Free
    | Stopping(session: SessionId, worker: WorkerId)
    | Clearing(session: SessionId, worker: WorkerId)
    | CleaningAgent(session: SessionId)                         // the end of a clear, direct or deferred
    | ClosingIdle                                               // close awaits the idle-cleanup task
    | ClosingWait(waiting: set<WorkerId>, timedOut: set<WorkerId>)
    | ClosingAgents(todo: set<SessionId>, timedOut: set<WorkerId>)
    | FinalizingAgents(todo: set<SessionId>)                    // the deferred end of a close

  datatype State = State(
    accepting: bool, closed: bool, lock: Lock,
    finalizer: Option<set<WorkerId>>,     // the task that ends a timed-out close, and the workers it awaits
    tasks: Tasks, staff: Staff, front: Front)

  const INITIAL := State(
    false, false, Free, None,
    Tasks(map[], map[], map[], map[]), Staff(map[], map[], {}, map[], {}, {}, map[]), Front(map[], {}, map[], map[]))

  // ----- workers

  datatype TaskEnd = Returned | Raised | WasCancelled

  datatype WorkerEvent =
    | Start
    | Take(scopeClosed: bool)      // `queue.get()` returns; the task's terminal scope may be closed already
    | IdleTimeout
    | CancelWaiting                // the cancellation arrives while the worker waits
    | OpenWindow                   // `begin_run`
    | Inject                       // the graph, or the worker's loop, takes what the inbox holds
    | CloseWindow(applied: nat)    // `finish_run`; so many of its messages are notified before a call raises
    | MakeAgent
    | DropAgent
    | DropFails                    // the agent to be replaced does not clean up, but its inbox is closed
    | EndTask(end: TaskEnd)        // the completion future is settled
    | LeaveTask(raised: bool)      // the inner `finally` is through

  function WorkerStep(st: State, w: WorkerId, e: WorkerEvent): State {
    if w !in st.staff.workers then st
    else
      var s := st.staff.workers[w].session;
      match st.staff.workers[w].phase
      case Created => if e.Start? then StartWorker(st, w, s) else st
      case Waiting(q) => WaitingStep(st, w, s, q, e)
      case Busy(q, t) =>
        if e.EndTask? then
          if st.front.WindowOpen(s) then st
          else
            st.(tasks := st.tasks.Settle(t, Outcome(st, s, e.end)),
                staff := st.staff.SetPhase(w, Leaving(q, t, false)))
        else st.(front := BusyStep(st.front, s, e))
      case Leaving(q, t, skipped) => if e.LeaveTask? then Leave(st, w, s, q, t, skipped, e.raised) else st
      case Done(_) => st
  }

  /** A worker cancelled before its first step ends without its `finally`. */
  function StartWorker(st: State, w: WorkerId, s: SessionId): State
    requires w in st.staff.workers
  {
    if st.staff.workers[w].cancelling then st.(staff := st.staff.SetPhase(w, Done(true)))
    else if !st.tasks.HasQueue(s) then st.(staff := st.staff.SetPhase(w, Done(false)))
    else st.(staff := st.staff.SetPhase(w, Waiting(st.tasks.queueOf[s])))
  }

  function WaitingStep(st: State, w: WorkerId, s: SessionId, q: QueueId, e: WorkerEvent): State
    requires w in st.staff.workers
  {
    if q !in st.tasks.queues then st
    else
      var ts := st.tasks.queues[q].tasks;
      match e
      case Take(scopeClosed) =>
        if ts == [] then st
        else if scopeClosed then
          st.(tasks := st.tasks.Take(q, w).Settle(ts[0], Cancelled),
              staff := st.staff.SetPhase(w, Leaving(q, ts[0], true)))
        else
          st.(tasks := st.tasks.Take(q, w), staff := st.staff.SetPhase(w, Busy(q, ts[0])),
              front := st.front.(activeTasks := st.front.activeTasks[s := ts[0]]))
      case IdleTimeout => if ts == [] then Finish(st, w, s, q) else st
      case CancelWaiting => if st.staff.workers[w].cancelling then Finish(st, w, s, q) else st
      case _ => st
  }

  /** While it processes a task, a worker opens and closes the inbox window and may replace the agent. */
  function BusyStep(f: Front, s: SessionId, e: WorkerEvent): Front {
    match e
    case OpenWindow =>
      if f.WindowOpen(s) || f.IsShut(s) then f else f.(inboxes := f.inboxes[s := Inbox(true, false, [])])
    case Inject => if f.WindowOpen(s) then f.Empty(s, Inbox(true, false, []), |f.inboxes[s].pending|, Applied) else f
    case CloseWindow(applied) => if f.WindowOpen(s) then f.Empty(s, Inbox(false, false, []), applied, Lost) else f
    case MakeAgent => if f.WindowOpen(s) then f else f.(agents := f.agents + {s})
    case DropAgent => if f.WindowOpen(s) then f else f.Drop(s)
    case DropFails => if f.WindowOpen(s) then f else f.Shut(s)
    case _ => f
  }

  function Outcome(st: State, s: SessionId, end: TaskEnd): Future {
    match end
    case Returned => if !st.accepting || s in st.staff.cancelRequested then Cancelled else Delivered
    case Raised => Failed
    case WasCancelled => if st.accepting then Cancelled else Failed
  }

  function Leave(st: State, w: WorkerId, s: SessionId, q: QueueId, t: TaskId, skipped: bool, raised: bool): State
    requires w in st.staff.workers
  {
    var active := st.front.activeTasks;
    var st1 := st.(
      tasks := st.tasks.Release(t), staff := st.staff.SetPhase(w, Waiting(q)),
      front := st.front.(activeTasks := if s in active && active[s] == t then active - {s} else active));
    if raised || (!skipped && s in st.staff.cancelRequested) then Finish(st1, w, s, q) else st1
  }

  /** The outer `finally` of a worker */
  function Finish(st: State, w: WorkerId, s: SessionId, q: QueueId): State
    requires w in st.staff.workers
  {
    st.(staff := st.staff.SetPhase(w, Done(false)).Forget(s, w).(cancelRequested := st.staff.cancelRequested - {s}),
        tasks := st.tasks.DropIfEmpty(s, q))
  }

  // ----- waiting for a worker to shut down

  /** How `await asyncio.wait_for(asyncio.shield(worker), timeout)` ends */
  datatype WaitEnd =
    | ShieldReturned
    | ShieldRaised
    | ShieldCancelled(callerCancelling: bool)
    | ShieldTimeout

  /** What asyncio guarantees: only a finished worker's outcome comes through the shield. */
  predicate CanEnd(phase: Phase, end: WaitEnd) {
    match end
    case ShieldReturned => phase == Done(false)
    case ShieldRaised => phase == Done(false)
    case ShieldCancelled(callerCancelling) => callerCancelling || phase == Done(true)
    case ShieldTimeout => true
  }

  datatype WaitResult = Stopped | TimedOut | CallerCancelled

  /** `_wait_for_worker_shutdown`: True, False, or the cancellation of the caller */
  function WaitForShutdown(phase: Phase, end: WaitEnd): WaitResult {
    match end
    case ShieldReturned => Stopped
    case ShieldRaised => Stopped
    case ShieldCancelled(callerCancelling) =>
      if phase == Done(true) && !callerCancelling then Stopped else CallerCancelled
    case ShieldTimeout => TimedOut
  }

  /** The wait returns True only for a finished worker, and never swallows its caller's cancellation. */
  lemma StoppedMeansFinished(phase: Phase, end: WaitEnd)
    requires CanEnd(phase, end)
    ensures WaitForShutdown(phase, end) == Stopped ==> phase.Done?
    ensures WaitForShutdown(phase, end) == CallerCancelled <==> end == ShieldCancelled(true)
  {
  }

  // ----- the operations of the manager

  /** New identities are passed in where the code creates an object. */
  datatype ManagerEvent =
    | Initialize
    | Submit(session: SessionId, task: TaskId, newQueue: QueueId, newWorker: WorkerId, matches: bool)
    | CallerLeaves(task: TaskId)                       // a caller that awaits completion is cancelled
    | Stop(session: SessionId)
    | Clear(session: SessionId)
    | Close
    | IdleStopped                                      // close goes on: it cancels all workers
    | WaitEnds(worker: WorkerId, end: WaitEnd, newWorker: WorkerId)
    | DiscardNext(session: SessionId)                  // close discards one queue after another
    | Gathered                                         // close has waited for all workers and discarded all queues
    | AgentCleaned(session: SessionId, ok: bool)
    | CleanupRaises                                    // `agent.cleanup` raises, or its caller is cancelled
    | CloseReturns
    | PendingCallback(session: SessionId)              // done-callback of a timed-out wait
    | DeferredCallback(session: SessionId, worker: WorkerId)
    | DeferredRuns(session: SessionId)                 // the deferred cleanup of a session gets the lock
    | FinalizerRuns                                    // the deferred end of a close gets the lock
    | FinalizerEnds

  /** `process_message`. `matches` says whether the message may steer the session's active task. */
  function SubmitTask(
    st: State, s: SessionId, t: TaskId, newQueue: QueueId, newWorker: WorkerId, matches: bool): State
  {
    if !st.accepting then st
    else if s in st.staff.shutdownPending && !st.staff.Finished(st.staff.shutdownPending[s]) then st
    else
      var staff := st.staff.(shutdownPending := st.staff.shutdownPending - {s});
      var f := st.front;
      if matches && s in f.activeTasks && f.HasRoom(s) then st.(staff := staff, front := f.Steer(s, t))
      else
        var tasks := st.tasks.EnsureQueue(s, newQueue);
        if !tasks.HasQueue(s) || |tasks.Queued(s)| >= AGENT_SESSION_QUEUE_MAX_SIZE then st.(staff := staff)
        else
          st.(tasks := tasks.Put(s, t),
              staff := if staff.HasLiveWorker(s) then staff else staff.CreateWorker(s, newWorker))
  }

  /** `_stop_current_task_locked`, up to its wait */
  function StopSession(st: State, s: SessionId): State {
    var st1 := st.(tasks := st.tasks.Discard(s));
    if s in st.staff.workerOf then
      st1.(staff := st.staff.Cancel({st.staff.workerOf[s]}).(cancelRequested := st.staff.cancelRequested + {s}),
           lock := Stopping(s, st.staff.workerOf[s]))
    else st1
  }

  /** The rest of `_stop_current_task_locked`: a queue that was filled meanwhile gets a new worker. */
  function StopEnds(st: State, s: SessionId, staff: Staff, newWorker: WorkerId): State {
    var restart := st.tasks.Queued(s) != [] && !staff.HasLiveWorker(s) && s !in staff.shutdownPending;
    st.(staff := if restart then staff.CreateWorker(s, newWorker) else staff, lock := Free)
  }

  function ClearSession(st: State, s: SessionId): State {
    if s in st.staff.cleanupPending then st
    else if s in st.staff.workerOf then
      var w := st.staff.workerOf[s];
      st.(staff := st.staff.Cancel({w}).(
            cleanupPending := st.staff.cleanupPending + {s}, cancelRequested := st.staff.cancelRequested + {s}),
          lock := Clearing(s, w))
    else ClearRest(st, s)
  }

  function ClearRest(st: State, s: SessionId): State {
    st.(tasks := st.tasks.Discard(s), lock := if s in st.front.agents then CleaningAgent(s) else Free)
  }

  /** `_defer_session_cleanup` */
  function Defer(st: State, s: SessionId, w: WorkerId): State {
    st.(tasks := st.tasks.Discard(s),
        staff := st.staff.(shutdownPending := st.staff.shutdownPending[s := w],
                           deferredCallbacks := st.staff.deferredCallbacks + {(s, w)}),
        lock := Free)
  }

  function WaitEnded(st: State, w: WorkerId, result: WaitResult, newWorker: WorkerId): State
    requires w in st.staff.workers
  {
    match st.lock
    case Stopping(s, v) =>
      if v != w then st
      else (
        match result
        case Stopped => StopEnds(st, s, st.staff.Forget(s, w), newWorker)
        case TimedOut => StopEnds(st, s, st.staff.(shutdownPending := st.staff.shutdownPending[s := w]), newWorker)
        case CallerCancelled => st.(lock := Free))
    case Clearing(s, v) =>
      if v != w then st
      else if result == Stopped then
        ClearRest(st.(staff := st.staff.Forget(s, w).(cleanupPending := st.staff.cleanupPending - {s})), s)
      else Defer(st, s, w)
    case ClosingWait(waiting, timedOut) =>
      if w !in waiting then st
      else (
        match result
        case Stopped => st.(lock := ClosingWait(waiting - {w}, timedOut))
        case TimedOut =>
          st.(lock := ClosingWait(waiting - {w}, timedOut + {w}),
              staff := st.staff.(shutdownPending := st.staff.shutdownPending[st.staff.workers[w].session := w]))
        case CallerCancelled => st.(lock := Free))
    case _ => st
  }

  function CloseManager(st: State): State {
    if st.closed || st.finalizer.Some? then st else st.(accepting := false, lock := ClosingIdle)
  }

  function AfterCleanup(st: State, s: SessionId, ok: bool): State {
    match st.lock
    case CleaningAgent(v) =>
      if v != s then st
      else st.(lock := Free,
               front := if ok then st.front.Drop(s) else st.front)
    case ClosingAgents(todo, timedOut) =>
      if s !in todo then st
      else st.(lock := ClosingAgents(todo - {s}, timedOut),
               front := if ok then st.front.(agents := st.front.agents - {s}) else st.front)
    case FinalizingAgents(todo) =>
      if s !in todo then st
      else st.(lock := FinalizingAgents(todo - {s}),
               front := if ok then st.front.(agents := st.front.agents - {s}) else st.front)
    case _ => st
  }

  /** The sessions of the given workers */
  function SessionsOf(staff: Staff, ws: set<WorkerId>): set<SessionId> {
    set w | w in ws && w in staff.workers :: staff.workers[w].session
  }

  function ManagerStep(st: State, e: ManagerEvent): State {
    match e
    case Initialize =>
      if st.lock == Free && !st.accepting && st.finalizer.None? then st.(accepting := true, closed := false) else st
    case Submit(s, t, newQueue, newWorker, matches) =>
      if st.lock == Free && t !in st.tasks.futures && t !in st.front.steered
         && newQueue !in st.tasks.queues && newWorker !in st.staff.workers
      then SubmitTask(st, s, t, newQueue, newWorker, matches) else st
    case CallerLeaves(t) => st.(tasks := st.tasks.Settle(t, Cancelled))
    case Stop(s) => if st.lock == Free then StopSession(st, s) else st
    case Clear(s) => if st.lock == Free then ClearSession(st, s) else st
    case Close => if st.lock == Free then CloseManager(st) else st
    case IdleStopped =>
      if st.lock != ClosingIdle then st
      else
        var ws := st.staff.workerOf.Values;
        st.(staff := st.staff.Cancel(ws).(cancelRequested := st.staff.cancelRequested + st.staff.workerOf.Keys),
            lock := ClosingWait(ws, {}))
    case WaitEnds(w, end, newWorker) =>
      if w in st.staff.workers && CanEnd(st.staff.workers[w].phase, end) && newWorker !in st.staff.workers
      then WaitEnded(st, w, WaitForShutdown(st.staff.workers[w].phase, end), newWorker) else st
    case DiscardNext(s) =>
      if st.lock.ClosingWait? && st.lock.waiting == {} && st.tasks.HasQueue(s)
      then
        var drained := st.tasks.Drain(st.tasks.queueOf[s], Failed);
        st.(tasks := drained.(queueOf := drained.queueOf - {s})) else st
    case Gathered =>
      if st.lock.ClosingWait? && st.lock.waiting == {} && st.tasks.queueOf == map[] then
        var late := st.lock.timedOut;
        st.(staff := st.staff.(workerOf :=
              map s | s in st.staff.workerOf && st.staff.workerOf[s] in late :: st.staff.workerOf[s]),
            lock := ClosingAgents(st.front.agents - SessionsOf(st.staff, late), late))
      else st
    case AgentCleaned(s, ok) => AfterCleanup(st, s, ok)
    case CleanupRaises =>
      if st.lock.CleaningAgent? || st.lock.ClosingAgents? then st.(lock := Free)
      else if st.lock.FinalizingAgents? then st.(lock := Free, finalizer := None)
      else st
    case CloseReturns =>
      if st.lock.ClosingAgents? && st.lock.todo == {} then
        if st.lock.timedOut != {} then st.(lock := Free, finalizer := Some(st.lock.timedOut))
        else st.(lock := Free, closed := st.front.agents == {})
      else st
    case PendingCallback(s) =>
      if s in st.staff.shutdownPending && st.staff.Finished(st.staff.shutdownPending[s])
         && s !in st.staff.cleanupPending
      then st.(staff := st.staff.(shutdownPending := st.staff.shutdownPending - {s})) else st
    case DeferredCallback(s, w) =>
      if (s, w) in st.staff.deferredCallbacks && st.staff.Finished(w) then
        var staff := st.staff.(deferredCallbacks := st.staff.deferredCallbacks - {(s, w)});
        if s in staff.shutdownPending && staff.shutdownPending[s] == w && s !in staff.deferredCleanups
        then st.(staff := staff.(deferredCleanups := staff.deferredCleanups[s := w])) else st.(staff := staff)
      else st
    case DeferredRuns(s) =>
      if st.lock == Free && s in st.staff.deferredCleanups && st.staff.Finished(st.staff.deferredCleanups[s]) then
        var staff := st.staff.Forget(s, st.staff.deferredCleanups[s]).(
          shutdownPending := st.staff.shutdownPending - {s}, cleanupPending := st.staff.cleanupPending - {s},
          deferredCleanups := st.staff.deferredCleanups - {s});
        st.(staff := staff, lock := if s in st.front.agents then CleaningAgent(s) else Free)
      else st
    case FinalizerRuns =>
      if st.lock == Free && st.finalizer.Some? && forall w :: w in st.finalizer.value ==> st.staff.Finished(w) then
        var ws := st.finalizer.value;
        st.(staff := st.staff.(workerOf :=
              map s | s in st.staff.workerOf && st.staff.workerOf[s] !in ws :: st.staff.workerOf[s]),
            lock := FinalizingAgents(st.front.agents))
      else st
    case FinalizerEnds =>
      if st.lock.FinalizingAgents? && st.lock.todo == {} then
        st.(staff := st.staff.(shutdownPending := map[], cancelRequested := {}),
            lock := Free, finalizer := None, closed := st.front.agents == {})
      else st
  }

  // ----- what happens to an inbox without the lock

  /** The sessions whose agent the holder of the lock is cleaning up */
  predicate IsCleaning(st: State, s: SessionId) {
    match st.lock
    case CleaningAgent(v) => v == s
    case ClosingAgents(todo, _) => s in todo
    case FinalizingAgents(todo) => s in todo
    case _ => false
  }

  /**
    `submit_steering_message` does not look at the gate. It finds the active task and the inbox
    once it has the lifecycle lock, and from there to the append nothing suspends: leaving the
    lock does not, and whoever holds the lock of the inbox awaits nothing. `matches` says
    whether the message comes from the user of the active task.
    `agent.cleanup` closes the inbox before its other awaits.
   */
  datatype InboxEvent =
    | SteerDirectly(session: SessionId, task: TaskId, matches: bool)
    | CleanupCloses(session: SessionId)

  function InboxStep(st: State, e: InboxEvent): State {
    match e
    case SteerDirectly(s, t, matches) =>
      if CanSteer(st, s, t, matches) then st.(front := st.front.Steer(s, t)) else st
    case CleanupCloses(s) =>
      if IsCleaning(st, s) then st.(front := st.front.Shut(s)) else st
  }

  /** A new message of the active task's user gets the lock, and the window is open with room for it. */
  predicate CanSteer(st: State, s: SessionId, t: TaskId, matches: bool) {
    && st.lock == Free && matches && s in st.front.activeTasks && st.front.HasRoom(s)
    && t !in st.tasks.futures && t !in st.front.steered
  }

  datatype Event =
    | AWorker(worker: WorkerId, step: WorkerEvent)
    | TheManager(operation: ManagerEvent)
    | AtInbox(access: InboxEvent)

  function Next(st: State, e: Event): State {
    match e
    case AWorker(w, step) => WorkerStep(st, w, step)
    case TheManager(op) => ManagerStep(st, op)
    case AtInbox(access) => InboxStep(st, access)
  }

  function Run(st: State, events: seq<Event>): State
    decreases |events|
  {
    if events == [] then st else Run(Next(st, events[0]), events[1..])
  }

  // ----- the invariant

  /** Every unfinished worker is the one the manager knows for its session. */
  ghost predicate StaffConsistent(x: Staff) {
    && (forall w :: x.Unfinished(w) ==> x.workers[w].session in x.workerOf && x.workerOf[x.workers[w].session] == w)
    && (forall s :: s in x.workerOf ==> x.workerOf[s] in x.workers && x.workers[x.workerOf[s]].session == s)
  }

  /** A task is in the hands of exactly the worker that holds it, and leaves them settled. */
  ghost predicate HandsConsistent(x: Tasks, y: Staff) {
    && (forall w :: w in y.workers && y.workers[w].HoldsTask() ==>
          y.workers[w].phase.task in x.places && x.places[y.workers[w].phase.task] == InHands(w))
    && (forall t :: t in x.places && x.places[t].InHands? ==>
          x.places[t].worker in y.workers && y.workers[x.places[t].worker].HoldsTask()
          && y.workers[x.places[t].worker].phase.task == t)
    && (forall w :: w in y.workers && y.workers[w].phase.Leaving? ==> x.IsSettled(y.workers[w].phase.task))
    && (forall w :: w in y.workers && y.workers[w].UsesQueue() ==> y.workers[w].phase.queue in x.queues)
  }

  /** Some worker of the session is processing a task. */
  ghost predicate IsProcessing(y: Staff, s: SessionId) {
    exists w :: w in y.workers && y.workers[w].session == s && y.workers[w].phase.Busy?
  }

  /** Messages wait only in an open window, which only a processing worker keeps open, at most eight. */
  ghost predicate FrontConsistent(f: Front, x: Tasks, y: Staff) {
    && (forall s :: f.WindowOpen(s) ==> IsProcessing(y, s))
    && (forall s :: s in f.inboxes ==>
          && |f.inboxes[s].pending| <= Steering.STEERING_QUEUE_MAX_SIZE
          && (f.inboxes[s].pending != [] ==> f.inboxes[s].open)
          && !(f.inboxes[s].open && f.inboxes[s].closed))
    && (forall t :: t in f.steered ==> t !in x.futures)
  }

  /** All unfinished workers are among these. */
  ghost predicate OnlyLate(y: Staff, late: set<WorkerId>) {
    forall w :: y.Unfinished(w) ==> w in late
  }

  /** What a close in progress, a pending finaliser, and a finished close have established */
  ghost predicate CloseConsistent(st: State) {
    && (st.closed ==>
          && !st.accepting && st.finalizer.None? && st.tasks.queueOf == map[] && st.front.agents == {}
          && OnlyLate(st.staff, {}) && !st.lock.ClosingIdle? && !st.lock.ClosingWait? && !st.lock.ClosingAgents?)
    && (st.lock.ClosingIdle? || st.lock.ClosingWait? || st.lock.ClosingAgents? ==> !st.accepting && st.finalizer.None?)
    && (st.lock.ClosingWait? ==> OnlyLate(st.staff, st.lock.waiting + st.lock.timedOut))
    && (st.lock.ClosingAgents? ==> st.tasks.queueOf == map[] && OnlyLate(st.staff, st.lock.timedOut))
    && (st.finalizer.Some? ==> !st.accepting && st.tasks.queueOf == map[] && OnlyLate(st.staff, st.finalizer.value))
    && (st.lock.FinalizingAgents? ==>
          !st.accepting && st.finalizer.Some? && st.tasks.queueOf == map[] && OnlyLate(st.staff, {}))
  }

  ghost predicate Core(x: Tasks, y: Staff, f: Front) {
    Consistent(x) && StaffConsistent(y) && HandsConsistent(x, y) && FrontConsistent(f, x, y)
  }

  /** While a stop or a clear waits for a worker, the session gets no other. */
  ghost predicate WaitsForTheOnlyWorker(st: State) {
    st.lock.Stopping? || st.lock.Clearing? ==>
      st.lock.session in st.staff.workerOf ==> st.staff.workerOf[st.lock.session] == st.lock.worker
  }

  ghost predicate Invariant(st: State) {
    Core(st.tasks, st.staff, st.front) && CloseConsistent(st) && WaitsForTheOnlyWorker(st)
  }

  // ----- one field at a time

  lemma SetPhaseKeepsStaff(x: Staff, w: WorkerId, phase: Phase)
    requires StaffConsistent(x) && w in x.workers && (phase.Done? || x.Unfinished(w))
    ensures StaffConsistent(x.SetPhase(w, phase))
    ensures forall v :: x.SetPhase(w, phase).Unfinished(v) ==> x.Unfinished(v)
  {
  }

  lemma ForgetKeepsStaff(x: Staff, s: SessionId, w: WorkerId)
    requires StaffConsistent(x) && !x.Unfinished(w)
    ensures StaffConsistent(x.Forget(s, w)) && x.Forget(s, w).workers == x.workers
  {
  }

  lemma CreateKeepsStaff(x: Staff, s: SessionId, w: WorkerId)
    requires StaffConsistent(x) && w !in x.workers && !x.HasLiveWorker(s)
    ensures StaffConsistent(x.CreateWorker(s, w))
  {
  }

  lemma CancelKeepsStaff(x: Staff, ws: set<WorkerId>)
    requires StaffConsistent(x)
    ensures StaffConsistent(x.Cancel(ws))
    ensures forall v :: x.Cancel(ws).Unfinished(v) <==> x.Unfinished(v)
  {
  }

  /** A worker that holds no task changes to a phase in which it holds none. */
  lemma IdlePhaseKeepsHands(x: Tasks, y: Staff, w: WorkerId, phase: Phase)
    requires HandsConsistent(x, y) && w in y.workers && !y.workers[w].HoldsTask()
    requires phase.Done? || (phase.Waiting? && phase.queue in x.queues)
    ensures HandsConsistent(x, y.SetPhase(w, phase))
  {
  }

  lemma TakeKeepsHands(x: Tasks, y: Staff, w: WorkerId, q: QueueId)
    requires Consistent(x) && HandsConsistent(x, y) && w in y.workers && y.workers[w].phase == Waiting(q)
    requires q in x.queues && x.queues[q].tasks != []
    ensures HandsConsistent(x.Take(q, w), y.SetPhase(w, Busy(q, x.queues[q].tasks[0])))
  {
    var t := x.queues[q].tasks[0];
    assert t in x.queues[q].tasks;
    assert x.places[t] == InQueue(q);
  }

  lemma SettleKeepsHands(x: Tasks, y: Staff, t: TaskId, outcome: Future)
    requires HandsConsistent(x, y) && outcome != Pending
    ensures HandsConsistent(x.Settle(t, outcome), y)
  {
  }

  lemma LeavingKeepsHands(x: Tasks, y: Staff, w: WorkerId, q: QueueId, t: TaskId, skipped: bool)
    requires HandsConsistent(x, y) && w in y.workers && y.workers[w].phase == Busy(q, t) && x.IsSettled(t)
    ensures HandsConsistent(x, y.SetPhase(w, Leaving(q, t, skipped)))
  {
  }

  lemma ReleaseKeepsHands(x: Tasks, y: Staff, w: WorkerId, q: QueueId, t: TaskId)
    requires HandsConsistent(x, y) && w in y.workers && y.workers[w].phase.Leaving?
    requires y.workers[w].phase.queue == q && y.workers[w].phase.task == t
    ensures HandsConsistent(x.Release(t), y.SetPhase(w, Waiting(q)))
  {
  }

  /** Putting, draining and unmapping touch no task in a worker's hands. */
  lemma OtherTasksKeepHands(x: Tasks, x': Tasks, y: Staff)
    requires HandsConsistent(x, y) && x.queues.Keys <= x'.queues.Keys
    requires forall t :: t in x.places && x.places[t].InHands? ==> t in x'.places && x'.places[t] == x.places[t]
    requires forall t :: t in x'.places && x'.places[t].InHands? ==> t in x.places && x.places[t] == x'.places[t]
    requires forall t :: x.IsSettled(t) ==> x'.IsSettled(t)
    ensures HandsConsistent(x', y)
  {
  }

  lemma OtherStaffKeepsHands(x: Tasks, y: Staff, y': Staff)
    requires HandsConsistent(x, y) && y.workers.Keys <= y'.workers.Keys
    requires forall w :: w in y.workers ==> y'.workers[w].phase == y.workers[w].phase
    requires forall w :: w in y'.workers && w !in y.workers ==> y'.workers[w].phase.Created?
    ensures HandsConsistent(x, y')
  {
  }

  /** Windows stay accounted for as long as processing workers keep processing. */
  lemma OtherStaffKeepsFront(f: Front, x: Tasks, x': Tasks, y: Staff, y': Staff)
    requires FrontConsistent(f, x, y) && x'.futures.Keys <= x.futures.Keys
    requires forall w :: w in y.workers && y.workers[w].phase.Busy? ==>
      w in y'.workers && y'.workers[w].phase.Busy? && y'.workers[w].session == y.workers[w].session
    ensures FrontConsistent(f, x', y')
  {
    forall s | f.WindowOpen(s) ensures IsProcessing(y', s) {
      var w :| w in y.workers && y.workers[w].session == s && y.workers[w].phase.Busy?;
      assert y'.workers[w].phase.Busy?;
    }
  }

  /** When the window of its session is closed, a worker may stop processing. */
  lemma ClosedWindowKeepsFront(f: Front, x: Tasks, y: Staff, w: WorkerId, phase: Phase)
    requires FrontConsistent(f, x, y) && w in y.workers && !f.WindowOpen(y.workers[w].session)
    ensures FrontConsistent(f, x, y.SetPhase(w, phase))
  {
    forall s | f.WindowOpen(s) ensures IsProcessing(y.SetPhase(w, phase), s) {
      var v :| v in y.workers && y.workers[v].session == s && y.workers[v].phase.Busy?;
      assert v != w && y.SetPhase(w, phase).workers[v] == y.workers[v];
    }
  }

  lemma BusyKeepsFront(f: Front, x: Tasks, y: Staff, w: WorkerId, e: WorkerEvent)
    requires FrontConsistent(f, x, y) && w in y.workers && y.workers[w].phase.Busy?
    ensures FrontConsistent(BusyStep(f, y.workers[w].session, e), x, y)
  {
    assert IsProcessing(y, y.workers[w].session);
  }

  // ----- workers keep the invariant

  ghost predicate HasCore(st: State) {
    Core(st.tasks, st.staff, st.front)
  }

  lemma FinishKeepsCore(st: State, w: WorkerId, s: SessionId, q: QueueId)
    requires HasCore(st) && w in st.staff.workers && st.staff.workers[w].phase.Waiting?
    ensures HasCore(Finish(st, w, s, q))
  {
    hide Consistent, HandsConsistent, StaffConsistent, FrontConsistent;
    var done := st.staff.SetPhase(w, Done(false));
    SetPhaseKeepsStaff(st.staff, w, Done(false));
    ForgetKeepsStaff(done, s, w);
    CancelFlagsKeep(done.Forget(s, w), st.staff.cancelRequested - {s});
    IdlePhaseKeepsHands(st.tasks, st.staff, w, Done(false));
    var tasks, staff := st.tasks.DropIfEmpty(s, q), Finish(st, w, s, q).staff;
    DropIfEmptyKeeps(st.tasks, s, q);
    OtherStaffKeepsHands(st.tasks, done, staff);
    OtherTasksKeepHands(st.tasks, tasks, staff);
    OtherStaffKeepsFront(st.front, st.tasks, tasks, st.staff, staff);
  }

  lemma CancelFlagsKeep(x: Staff, flags: set<SessionId>)
    requires StaffConsistent(x)
    ensures StaffConsistent(x.(cancelRequested := flags))
  {
  }

  lemma StartKeepsCore(st: State, w: WorkerId, s: SessionId)
    requires HasCore(st) && w in st.staff.workers && st.staff.workers[w].phase.Created?
    ensures HasCore(StartWorker(st, w, s))
  {
    hide Consistent, HandsConsistent, StaffConsistent, FrontConsistent;
    var st' := StartWorker(st, w, s);
    var phase := st'.staff.workers[w].phase;
    SetPhaseKeepsStaff(st.staff, w, phase);
    IdlePhaseKeepsHands(st.tasks, st.staff, w, phase);
    OtherStaffKeepsFront(st.front, st.tasks, st.tasks, st.staff, st'.staff);
  }

  lemma WaitingKeepsCore(st: State, w: WorkerId, s: SessionId, q: QueueId, e: WorkerEvent)
    requires HasCore(st) && w in st.staff.workers && st.staff.workers[w].phase == Waiting(q)
    ensures HasCore(WaitingStep(st, w, s, q, e))
  {
    hide Consistent, HandsConsistent, StaffConsistent, FrontConsistent, Finish;
    if q in st.tasks.queues {
      match e
      case Take(scopeClosed) =>
        if st.tasks.queues[q].tasks != [] {
          TakeKeepsCore(st, w, s, q, scopeClosed);
        }
      case IdleTimeout => FinishKeepsCore(st, w, s, q);
      case CancelWaiting => FinishKeepsCore(st, w, s, q);
      case _ =>
    }
  }

  lemma TakeKeepsCore(st: State, w: WorkerId, s: SessionId, q: QueueId, scopeClosed: bool)
    requires HasCore(st) && w in st.staff.workers && st.staff.workers[w].phase == Waiting(q)
    requires q in st.tasks.queues && st.tasks.queues[q].tasks != []
    ensures HasCore(WaitingStep(st, w, s, q, WorkerEvent.Take(scopeClosed)))
  {
    hide Consistent, HandsConsistent, StaffConsistent, FrontConsistent;
    var t := st.tasks.queues[q].tasks[0];
    var tasks, busy := st.tasks.Take(q, w), st.staff.SetPhase(w, Busy(q, t));
    TakeKeeps(st.tasks, q, w);
    TakeKeepsHands(st.tasks, st.staff, w, q);
    SetPhaseKeepsStaff(st.staff, w, Busy(q, t));
    OtherStaffKeepsFront(st.front, st.tasks, tasks, st.staff, busy);
    if scopeClosed {
      var settled := tasks.Settle(t, Cancelled);
      var leaving := st.staff.SetPhase(w, Leaving(q, t, true));
      assert leaving == busy.SetPhase(w, Leaving(q, t, true));
      HeadHasFuture(st.tasks, q);
      SettleKeeps(tasks, t, Cancelled);
      SettleKeepsHands(tasks, busy, t, Cancelled);
      LeavingKeepsHands(settled, busy, w, q, t, true);
      SetPhaseKeepsStaff(busy, w, Leaving(q, t, true));
      OtherStaffKeepsFront(st.front, st.tasks, settled, st.staff, leaving);
    } else {
      ActiveTasksDoNotMatter(st.front, tasks, busy, st.front.activeTasks[s := t]);
    }
  }

  lemma HeadHasFuture(x: Tasks, q: QueueId)
    requires Consistent(x) && q in x.queues && x.queues[q].tasks != []
    ensures x.queues[q].tasks[0] in x.futures
  {
    assert x.queues[q].tasks[0] in x.queues[q].tasks;
  }

  lemma ActiveTasksDoNotMatter(f: Front, x: Tasks, y: Staff, active: map<SessionId, TaskId>)
    requires FrontConsistent(f, x, y)
    ensures FrontConsistent(f.(activeTasks := active), x, y)
  {
    assert forall s :: f.(activeTasks := active).WindowOpen(s) <==> f.WindowOpen(s);
  }

  lemma EndTaskKeepsCore(st: State, w: WorkerId, e: WorkerEvent)
    requires HasCore(st) && w in st.staff.workers && st.staff.workers[w].phase.Busy? && e.EndTask?
    ensures HasCore(WorkerStep(st, w, e))
  {
    hide Consistent, StaffConsistent, FrontConsistent;
    var s, q, t := st.staff.workers[w].session, st.staff.workers[w].phase.queue, st.staff.workers[w].phase.task;
    if !st.front.WindowOpen(s) {
      var tasks := st.tasks.Settle(t, Outcome(st, s, e.end));
      HeldHasFuture(st.tasks, st.staff, w);
      hide HandsConsistent;
      SettleKeeps(st.tasks, t, Outcome(st, s, e.end));
      SettleKeepsHands(st.tasks, st.staff, t, Outcome(st, s, e.end));
      LeavingKeepsHands(tasks, st.staff, w, q, t, false);
      SetPhaseKeepsStaff(st.staff, w, Leaving(q, t, false));
      OtherStaffKeepsFront(st.front, st.tasks, tasks, st.staff, st.staff);
      ClosedWindowKeepsFront(st.front, tasks, st.staff, w, Leaving(q, t, false));
    }
  }

  lemma HeldHasFuture(x: Tasks, y: Staff, w: WorkerId)
    requires Consistent(x) && HandsConsistent(x, y) && w in y.workers && y.workers[w].HoldsTask()
    ensures y.workers[w].phase.task in x.futures
    ensures y.workers[w].phase.task in x.places && x.places[y.workers[w].phase.task] == InHands(w)
    ensures y.workers[w].phase.Leaving? ==> x.IsSettled(y.workers[w].phase.task)
  {
  }

  lemma LeaveKeepsCore(st: State, w: WorkerId, s: SessionId, q: QueueId, t: TaskId, skipped: bool, raised: bool)
    requires HasCore(st) && w in st.staff.workers && st.staff.workers[w].phase == Leaving(q, t, skipped)
    ensures HasCore(Leave(st, w, s, q, t, skipped, raised))
  {
    hide Consistent, HandsConsistent, StaffConsistent, FrontConsistent, Finish;
    HeldHasFuture(st.tasks, st.staff, w);
    var tasks, staff := st.tasks.Release(t), st.staff.SetPhase(w, Waiting(q));
    ReleaseKeeps(st.tasks, t);
    ReleaseKeepsHands(st.tasks, st.staff, w, q, t);
    SetPhaseKeepsStaff(st.staff, w, Waiting(q));
    OtherStaffKeepsFront(st.front, st.tasks, tasks, st.staff, staff);
    var active := st.front.activeTasks;
    var left := if s in active && active[s] == t then active - {s} else active;
    ActiveTasksDoNotMatter(st.front, tasks, staff, left);
    FinishKeepsCore(st.(tasks := tasks, staff := staff, front := st.front.(activeTasks := left)), w, s, q);
  }

  lemma WorkersKeepCore(st: State, w: WorkerId, e: WorkerEvent)
    requires HasCore(st)
    ensures HasCore(WorkerStep(st, w, e))
  {
    hide Consistent, HandsConsistent, StaffConsistent, FrontConsistent, Leave, WaitingStep, StartWorker;
    if w in st.staff.workers {
      var s := st.staff.workers[w].session;
      match st.staff.workers[w].phase
      case Created => StartKeepsCore(st, w, s);
      case Waiting(q) => WaitingKeepsCore(st, w, s, q, e);
      case Busy(q, t) =>
        if e.EndTask? {
          EndTaskKeepsCore(st, w, e);
        } else {
          BusyKeepsFront(st.front, st.tasks, st.staff, w, e);
        }
      case Leaving(q, t, skipped) =>
        if e.LeaveTask? {
          LeaveKeepsCore(st, w, s, q, t, skipped, e.raised);
        }
      case Done(_) =>
    }
  }

  /** A worker creates no worker, maps no queue, and leaves the gates and the lock alone. */
  ghost predicate OnlyFinishes(st: State, st': State) {
    && st'.accepting == st.accepting && st'.closed == st.closed && st'.lock == st.lock && st'.finalizer == st.finalizer
    && (forall v :: st'.staff.Unfinished(v) ==> st.staff.Unfinished(v))
    && (st.tasks.queueOf == map[] ==> st'.tasks.queueOf == map[])
    && (forall s :: s in st'.staff.workerOf ==> s in st.staff.workerOf && st'.staff.workerOf[s] == st.staff.workerOf[s])
  }

  lemma FinishOnlyFinishes(st: State, w: WorkerId, s: SessionId, q: QueueId)
    requires st.staff.Unfinished(w)
    ensures OnlyFinishes(st, Finish(st, w, s, q))
  {
  }

  lemma WaitingOnlyFinishes(st: State, w: WorkerId, s: SessionId, q: QueueId, e: WorkerEvent)
    requires st.staff.Unfinished(w)
    ensures OnlyFinishes(st, WaitingStep(st, w, s, q, e))
  {
    hide Finish;
    FinishOnlyFinishes(st, w, s, q);
  }

  lemma LeaveOnlyFinishes(
    st: State, w: WorkerId, s: SessionId, q: QueueId, t: TaskId, skipped: bool, raised: bool)
    requires st.staff.Unfinished(w)
    ensures OnlyFinishes(st, Leave(st, w, s, q, t, skipped, raised))
  {
    hide Finish;
    var active := st.front.activeTasks;
    var st1 := st.(
      tasks := st.tasks.Release(t), staff := st.staff.SetPhase(w, Waiting(q)),
      front := st.front.(activeTasks := if s in active && active[s] == t then active - {s} else active));
    assert OnlyFinishes(st, st1);
    FinishOnlyFinishes(st1, w, s, q);
  }

  lemma WorkersOnlyFinish(st: State, w: WorkerId, e: WorkerEvent)
    ensures OnlyFinishes(st, WorkerStep(st, w, e))
    ensures !st.staff.Unfinished(w) ==> WorkerStep(st, w, e) == st
  {
    hide WaitingStep, Leave;
    if st.staff.Unfinished(w) {
      var s := st.staff.workers[w].session;
      match st.staff.workers[w].phase
      case Created =>
      case Waiting(q) => WaitingOnlyFinishes(st, w, s, q, e);
      case Busy(q, t) =>
      case Leaving(q, t, skipped) =>
        if e.LeaveTask? {
          LeaveOnlyFinishes(st, w, s, q, t, skipped, e.raised);
        }
    }
  }

  lemma WorkersKeepClose(st: State, w: WorkerId, e: WorkerEvent)
    requires CloseConsistent(st)
    ensures CloseConsistent(WorkerStep(st, w, e))
  {
    hide WorkerStep;
    WorkersOnlyFinish(st, w, e);
  }

  // ----- the manager keeps the invariant

  /** The other fields of the staff do not matter. */
  lemma FlagsKeepCore(x: Tasks, y: Staff, y': Staff, f: Front)
    requires Core(x, y, f) && y'.workers == y.workers && y'.workerOf == y.workerOf
    ensures Core(x, y', f)
  {
    hide Consistent;
    OtherStaffKeepsHands(x, y, y');
    OtherStaffKeepsFront(f, x, x, y, y');
    assert forall w :: y'.Unfinished(w) <==> y.Unfinished(w);
  }

  lemma CreateKeepsCore(x: Tasks, y: Staff, f: Front, s: SessionId, w: WorkerId)
    requires Core(x, y, f) && w !in y.workers && !y.HasLiveWorker(s)
    ensures Core(x, y.CreateWorker(s, w), f)
  {
    hide Consistent, HandsConsistent, StaffConsistent, FrontConsistent;
    CreateKeepsStaff(y, s, w);
    OtherStaffKeepsHands(x, y, y.CreateWorker(s, w));
    OtherStaffKeepsFront(f, x, x, y, y.CreateWorker(s, w));
  }

  lemma PutKeepsCore(x: Tasks, y: Staff, f: Front, s: SessionId, t: TaskId, newQueue: QueueId)
    requires Core(x, y, f) && t !in x.futures && t !in f.steered && newQueue !in x.queues
    requires |x.EnsureQueue(s, newQueue).Queued(s)| < AGENT_SESSION_QUEUE_MAX_SIZE
    ensures x.EnsureQueue(s, newQueue).HasQueue(s)
    ensures Core(x.EnsureQueue(s, newQueue).Put(s, t), y, f)
  {
    hide Consistent, HandsConsistent, StaffConsistent, FrontConsistent, Tasks.EnsureQueue, Tasks.Put;
    NewTaskIsNowhere(x, t);
    EnsureQueueKeeps(x, s, newQueue);
    EnsureQueueOnlyMaps(x, s, newQueue);
    PutIntoKeepsCore(x, x.EnsureQueue(s, newQueue), y, f, s, t);
  }

  lemma EnsureQueueOnlyMaps(x: Tasks, s: SessionId, newQueue: QueueId)
    ensures
      var x1 := x.EnsureQueue(s, newQueue);
      x1.places == x.places && x1.futures == x.futures && x.queues.Keys <= x1.queues.Keys
  {
  }

  lemma PutIntoKeepsCore(x: Tasks, x1: Tasks, y: Staff, f: Front, s: SessionId, t: TaskId)
    requires Core(x, y, f) && Consistent(x1) && t !in x.places && t !in f.steered
    requires x1.HasQueue(s) && |x1.Queued(s)| < AGENT_SESSION_QUEUE_MAX_SIZE
    requires x1.places == x.places && x1.futures == x.futures && x.queues.Keys <= x1.queues.Keys
    ensures Core(x1.Put(s, t), y, f)
  {
    hide Consistent, HandsConsistent, StaffConsistent, FrontConsistent;
    PutKeeps(x1, s, t);
    PutKeepsHands(x, x1, y, s, t);
    PutKeepsFront(f, x, x1.Put(s, t), y, t);
  }

  lemma PutKeepsHands(x: Tasks, x1: Tasks, y: Staff, s: SessionId, t: TaskId)
    requires HandsConsistent(x, y) && t !in x.places
    requires x1.HasQueue(s) && x1.places == x.places && x1.futures == x.futures && x.queues.Keys <= x1.queues.Keys
    ensures HandsConsistent(x1.Put(s, t), y)
  {
  }

  lemma SubmitKeepsCore(st: State, s: SessionId, t: TaskId, newQueue: QueueId, newWorker: WorkerId, matches: bool)
    requires HasCore(st) && t !in st.tasks.futures && t !in st.front.steered
    requires newQueue !in st.tasks.queues && newWorker !in st.staff.workers
    ensures HasCore(SubmitTask(st, s, t, newQueue, newWorker, matches))
  {
    hide Consistent, HandsConsistent, StaffConsistent, FrontConsistent;
    var st' := SubmitTask(st, s, t, newQueue, newWorker, matches);
    var staff := st.staff.(shutdownPending := st.staff.shutdownPending - {s});
    FlagsKeepCore(st.tasks, st.staff, staff, st.front);
    if st'.front != st.front {
      SteerKeepsFront(st.front, st.tasks, staff, s, t);
    } else if st'.tasks != st.tasks {
      PutKeepsCore(st.tasks, staff, st.front, s, t, newQueue);
      if !staff.HasLiveWorker(s) {
        CreateKeepsCore(st'.tasks, staff, st.front, s, newWorker);
      }
    }
  }

  lemma NewTaskIsNowhere(x: Tasks, t: TaskId)
    requires Consistent(x) && t !in x.futures
    ensures t !in x.places
  {
  }

  lemma SteerKeepsFront(f: Front, x: Tasks, y: Staff, s: SessionId, t: TaskId)
    requires FrontConsistent(f, x, y) && f.HasRoom(s) && t !in x.futures
    ensures FrontConsistent(f.Steer(s, t), x, y)
  {
  }

  lemma PutKeepsFront(f: Front, x: Tasks, x': Tasks, y: Staff, t: TaskId)
    requires FrontConsistent(f, x, y) && t !in f.steered && x'.futures.Keys == x.futures.Keys + {t}
    ensures FrontConsistent(f, x', y)
  {
  }

  lemma DiscardKeepsCore(x: Tasks, y: Staff, f: Front, s: SessionId)
    requires Core(x, y, f)
    ensures Core(x.Discard(s), y, f)
  {
    hide FrontConsistent, StaffConsistent;
    DiscardKeeps(x, s);
    if x.HasQueue(s) {
      DrainKeepsHands(x, y, x.queueOf[s], Cancelled);
    }
    hide HandsConsistent, Consistent;
    OtherStaffKeepsFront(f, x, x.Discard(s), y, y);
  }

  lemma DrainKeepsHands(x: Tasks, y: Staff, q: QueueId, outcome: Future)
    requires Consistent(x) && HandsConsistent(x, y) && q in x.queues && outcome != Pending
    ensures HandsConsistent(x.Drain(q, outcome), y)
  {
    hide QueuesConsistent, QueuesBounded;
    forall t | t in x.places && x.places[t].InHands? ensures t !in x.queues[q].tasks {
      NotQueued(x, q, t);
    }
    forall t | t in x.queues[q].tasks ensures x.places[t] == InQueue(q) {
    }
    OtherTasksKeepHands(x, x.Drain(q, outcome), y);
  }

  lemma DrainUnmapKeepsCore(x: Tasks, y: Staff, f: Front, s: SessionId)
    requires Core(x, y, f) && x.HasQueue(s)
    ensures var drained := x.Drain(x.queueOf[s], Failed);
            Core(drained.(queueOf := drained.queueOf - {s}), y, f)
  {
    hide FrontConsistent, StaffConsistent, HandsConsistent, Consistent;
    var drained := x.Drain(x.queueOf[s], Failed);
    DrainKeeps(x, x.queueOf[s], Failed);
    DrainKeepsHands(x, y, x.queueOf[s], Failed);
    UnmapKeeps(drained, s);
    var unmapped := drained.(queueOf := drained.queueOf - {s});
    OtherTasksKeepHands(drained, unmapped, y);
    OtherStaffKeepsFront(f, x, unmapped, y, y);
  }

  lemma SettleKeepsCore(x: Tasks, y: Staff, f: Front, t: TaskId)
    requires Core(x, y, f)
    ensures Core(x.Settle(t, Cancelled), y, f)
  {
    hide FrontConsistent, StaffConsistent, HandsConsistent, Consistent;
    SettleKeeps(x, t, Cancelled);
    SettleKeepsHands(x, y, t, Cancelled);
    OtherStaffKeepsFront(f, x, x.Settle(t, Cancelled), y, y);
  }

  lemma CancelKeepsCore(x: Tasks, y: Staff, f: Front, ws: set<WorkerId>)
    requires Core(x, y, f)
    ensures Core(x, y.Cancel(ws), f)
  {
    hide FrontConsistent, StaffConsistent, HandsConsistent, Consistent;
    CancelKeepsStaff(y, ws);
    OtherStaffKeepsHands(x, y, y.Cancel(ws));
    OtherStaffKeepsFront(f, x, x, y, y.Cancel(ws));
  }

  /** Entries of finished workers may be dropped from the map of workers. */
  lemma DropEntriesKeepsCore(x: Tasks, y: Staff, y': Staff, f: Front)
    requires Core(x, y, f) && y' == y.(workerOf := y'.workerOf)
    requires forall s :: s in y'.workerOf ==> s in y.workerOf && y'.workerOf[s] == y.workerOf[s]
    requires forall s :: s in y.workerOf && y.Unfinished(y.workerOf[s]) ==> s in y'.workerOf
    ensures Core(x, y', f)
  {
    hide FrontConsistent, HandsConsistent, Consistent;
    assert forall w :: y'.Unfinished(w) <==> y.Unfinished(w);
    OtherStaffKeepsHands(x, y, y');
    OtherStaffKeepsFront(f, x, x, y, y');
  }

  lemma ForgetKeepsCore(x: Tasks, y: Staff, f: Front, s: SessionId, w: WorkerId)
    requires Core(x, y, f) && !y.Unfinished(w)
    ensures Core(x, y.Forget(s, w), f)
  {
    hide Core;
    DropEntriesKeepsCore(x, y, y.Forget(s, w), f);
  }

  lemma DropInboxKeepsCore(x: Tasks, y: Staff, f: Front, s: SessionId)
    requires Core(x, y, f)
    ensures Core(x, y, f.(agents := f.agents - {s}))
    ensures Core(x, y, f.Drop(s))
  {
    hide HandsConsistent, Consistent, StaffConsistent;
    var f1, f2 := f.(agents := f.agents - {s}), f.Drop(s);
    assert forall v :: f1.WindowOpen(v) ==> f.WindowOpen(v);
    assert forall v :: f2.WindowOpen(v) ==> f.WindowOpen(v);
  }

  lemma StopKeepsCore(st: State, s: SessionId)
    requires HasCore(st)
    ensures HasCore(StopSession(st, s))
  {
    hide Core;
    DiscardKeepsCore(st.tasks, st.staff, st.front, s);
    if s in st.staff.workerOf {
      var cancelled := st.staff.Cancel({st.staff.workerOf[s]});
      CancelKeepsCore(st.tasks.Discard(s), st.staff, st.front, {st.staff.workerOf[s]});
      FlagsKeepCore(st.tasks.Discard(s), cancelled, StopSession(st, s).staff, st.front);
    }
  }

  lemma ClearKeepsCore(st: State, s: SessionId)
    requires HasCore(st)
    ensures HasCore(ClearSession(st, s))
  {
    hide Core;
    if s in st.staff.workerOf {
      CancelKeepsCore(st.tasks, st.staff, st.front, {st.staff.workerOf[s]});
      FlagsKeepCore(st.tasks, st.staff.Cancel({st.staff.workerOf[s]}),
        st.staff.Cancel({st.staff.workerOf[s]}).(
          cleanupPending := st.staff.cleanupPending + {s},
          cancelRequested := st.staff.cancelRequested + {s}), st.front);
    } else {
      DiscardKeepsCore(st.tasks, st.staff, st.front, s);
    }
  }

  lemma StopEndsKeepsCore(st: State, s: SessionId, staff: Staff, newWorker: WorkerId)
    requires Core(st.tasks, staff, st.front) && newWorker !in staff.workers
    ensures HasCore(StopEnds(st, s, staff, newWorker))
  {
    hide Core;
    if !staff.HasLiveWorker(s) {
      CreateKeepsCore(st.tasks, staff, st.front, s, newWorker);
    }
  }

  lemma WaitEndedKeepsCore(st: State, w: WorkerId, result: WaitResult, newWorker: WorkerId)
    requires HasCore(st) && w in st.staff.workers && newWorker !in st.staff.workers
    requires result == Stopped ==> !st.staff.Unfinished(w)
    ensures HasCore(WaitEnded(st, w, result, newWorker))
  {
    hide Core, StopEnds;
    match st.lock
    case Stopping(s, v) =>
      FlagsKeepCore(st.tasks, st.staff, st.staff.(shutdownPending := st.staff.shutdownPending[s := w]), st.front);
      if result == Stopped {
        ForgetKeepsCore(st.tasks, st.staff, st.front, s, w);
        StopEndsKeepsCore(st, s, st.staff.Forget(s, w), newWorker);
      } else {
        StopEndsKeepsCore(st, s, st.staff.(shutdownPending := st.staff.shutdownPending[s := w]), newWorker);
      }
    case Clearing(s, v) =>
      if result == Stopped {
        ForgetKeepsCore(st.tasks, st.staff, st.front, s, w);
        var staff := st.staff.Forget(s, w).(cleanupPending := st.staff.cleanupPending - {s});
        FlagsKeepCore(st.tasks, st.staff.Forget(s, w), staff, st.front);
        DiscardKeepsCore(st.tasks, staff, st.front, s);
      } else {
        DiscardKeepsCore(st.tasks, st.staff, st.front, s);
        FlagsKeepCore(st.tasks.Discard(s), st.staff, Defer(st, s, w).staff, st.front);
      }
    case ClosingWait(waiting, timedOut) =>
      FlagsKeepCore(st.tasks, st.staff,
        st.staff.(shutdownPending := st.staff.shutdownPending[st.staff.workers[w].session := w]), st.front);
    case _ =>
  }

  lemma ManagerKeepsCore(st: State, e: ManagerEvent)
    requires Invariant(st)
    ensures HasCore(ManagerStep(st, e))
  {
    hide Core, CloseConsistent, SubmitTask, StopSession, ClearSession, WaitEnded;
    var x, y, f := st.tasks, st.staff, st.front;
    match e
    case Submit(s, t, newQueue, newWorker, matches) =>
      if t !in x.futures && t !in f.steered && newQueue !in x.queues && newWorker !in y.workers {
        SubmitKeepsCore(st, s, t, newQueue, newWorker, matches);
      }
    case CallerLeaves(t) => SettleKeepsCore(x, y, f, t);
    case Stop(s) => StopKeepsCore(st, s);
    case Clear(s) => ClearKeepsCore(st, s);
    case IdleStopped =>
      CancelKeepsCore(x, y, f, y.workerOf.Values);
      FlagsKeepCore(x, y.Cancel(y.workerOf.Values),
        y.Cancel(y.workerOf.Values).(cancelRequested := y.cancelRequested + y.workerOf.Keys), f);
    case WaitEnds(w, end, newWorker) =>
      if w in y.workers && CanEnd(y.workers[w].phase, end) && newWorker !in y.workers {
        StoppedMeansFinished(y.workers[w].phase, end);
        WaitEndedKeepsCore(st, w, WaitForShutdown(y.workers[w].phase, end), newWorker);
      }
    case DiscardNext(s) =>
      if x.HasQueue(s) {
        DrainUnmapKeepsCore(x, y, f, s);
      }
    case Gathered => GatheredKeepsCore(st);
    case AgentCleaned(s, ok) => DropInboxKeepsCore(x, y, f, s);
    case FinalizerRuns =>
      if st.finalizer.Some? && forall w :: w in st.finalizer.value ==> y.Finished(w) {
        DropEntriesKeepsCore(x, y, y.(workerOf :=
          map s | s in y.workerOf && y.workerOf[s] !in st.finalizer.value :: y.workerOf[s]), f);
      }
    case DeferredRuns(s) =>
      if s in y.deferredCleanups && y.Finished(y.deferredCleanups[s]) {
        ForgetKeepsCore(x, y, f, s, y.deferredCleanups[s]);
        FlagsKeepCore(x, y.Forget(s, y.deferredCleanups[s]), y.Forget(s, y.deferredCleanups[s]).(
          shutdownPending := y.shutdownPending - {s}, cleanupPending := y.cleanupPending - {s},
          deferredCleanups := y.deferredCleanups - {s}), f);
      }
    case PendingCallback(s) =>
      FlagsKeepCore(x, y, y.(shutdownPending := y.shutdownPending - {s}), f);
    case DeferredCallback(s, w) =>
      var staff := y.(deferredCallbacks := y.deferredCallbacks - {(s, w)});
      FlagsKeepCore(x, y, staff, f);
      FlagsKeepCore(x, y, staff.(deferredCleanups := staff.deferredCleanups[s := w]), f);
    case FinalizerEnds =>
      FlagsKeepCore(x, y, y.(shutdownPending := map[], cancelRequested := {}), f);
    case _ =>
  }

  lemma GatheredKeepsCore(st: State)
    requires Invariant(st)
    ensures HasCore(ManagerStep(st, Gathered))
  {
    hide FrontConsistent, HandsConsistent, Consistent;
    if st.lock.ClosingWait? && st.lock.waiting == {} && st.tasks.queueOf == map[] {
      assert OnlyLate(st.staff, st.lock.waiting + st.lock.timedOut);
      DropEntriesKeepsCore(st.tasks, st.staff, ManagerStep(st, Gathered).staff, st.front);
    }
  }

  /** Without a task to serve, no operation maps a queue or creates a worker while the gate is shut. */
  lemma ShutGateCreatesNothing(st: State, e: ManagerEvent)
    requires !st.accepting
    ensures
      var st' := ManagerStep(st, e);
      && (st.tasks.queueOf == map[] ==>
            st'.tasks.queueOf == map[] && forall v :: st'.staff.Unfinished(v) ==> st.staff.Unfinished(v))
      && st'.front.agents <= st.front.agents
      && (st'.accepting ==> e == Initialize)
  {
    hide ManagerStep;
    if st.tasks.queueOf == map[] {
      ShutGateOpensNoQueue(st, e);
      ShutGateStartsNoWorker(st, e);
    }
    ShutGateMakesNoAgent(st, e);
  }

  lemma ShutGateOpensNoQueue(st: State, e: ManagerEvent)
    requires !st.accepting && st.tasks.queueOf == map[]
    ensures ManagerStep(st, e).tasks.queueOf == map[]
  {
  }

  lemma ShutGateStartsNoWorker(st: State, e: ManagerEvent)
    requires !st.accepting && st.tasks.queueOf == map[]
    ensures forall v :: ManagerStep(st, e).staff.Unfinished(v) ==> st.staff.Unfinished(v)
  {
  }

  lemma ShutGateMakesNoAgent(st: State, e: ManagerEvent)
    requires !st.accepting
    ensures ManagerStep(st, e).front.agents <= st.front.agents
    ensures ManagerStep(st, e).accepting ==> e == Initialize
  {
  }

  lemma ManagerKeepsClose(st: State, e: ManagerEvent)
    requires Invariant(st)
    ensures CloseConsistent(ManagerStep(st, e))
  {
    assert StaffConsistent(st.staff);
    hide Core;
    if st.accepting {
      OpenGateKeepsClose(st, e);
    } else {
      ShutGateCreatesNothing(st, e);
      match e
      case WaitEnds(w, end, newWorker) => WaitEndsKeepsClose(st, w, end, newWorker);
      case IdleStopped => IdleStoppedKeepsClose(st);
      case DiscardNext(s) =>
      case _ => ShutGateKeepsClose(st, e);
    }
  }

  lemma OpenGateKeepsClose(st: State, e: ManagerEvent)
    requires st.accepting && CloseConsistent(st)
    ensures CloseConsistent(ManagerStep(st, e))
  {
  }

  lemma ShutGateKeepsClose(st: State, e: ManagerEvent)
    requires !st.accepting && CloseConsistent(st)
    requires !e.WaitEnds? && !e.IdleStopped? && !e.DiscardNext?
    ensures CloseConsistent(ManagerStep(st, e))
  {
    ShutGateCreatesNothing(st, e);
  }

  lemma WaitEndsKeepsClose(st: State, w: WorkerId, end: WaitEnd, newWorker: WorkerId)
    requires !st.accepting && CloseConsistent(st)
    ensures CloseConsistent(ManagerStep(st, WaitEnds(w, end, newWorker)))
  {
    ShutGateCreatesNothing(st, WaitEnds(w, end, newWorker));
    var st' := ManagerStep(st, WaitEnds(w, end, newWorker));
    if st.lock.ClosingWait? && st'.lock.ClosingWait? {
      forall v | st'.staff.Unfinished(v) ensures v in st'.lock.waiting + st'.lock.timedOut {
        assert st.staff.Unfinished(v);
        assert v in st.lock.waiting + st.lock.timedOut;
      }
    }
  }

  lemma IdleStoppedKeepsClose(st: State)
    requires !st.accepting && CloseConsistent(st) && StaffConsistent(st.staff)
    ensures CloseConsistent(ManagerStep(st, IdleStopped))
  {
    var st' := ManagerStep(st, IdleStopped);
    if st.lock == ClosingIdle {
      forall w | st'.staff.Unfinished(w) ensures w in st'.lock.waiting {
        assert st.staff.Unfinished(w);
        assert st.staff.workers[w].session in st.staff.workerOf.Keys;
      }
    }
  }

  // ----- every run keeps the invariant

  lemma WorkersKeepWait(st: State, w: WorkerId, e: WorkerEvent)
    requires WaitsForTheOnlyWorker(st)
    ensures WaitsForTheOnlyWorker(WorkerStep(st, w, e))
  {
    hide WorkerStep;
    WorkersOnlyFinish(st, w, e);
  }

  lemma ManagerKeepsWait(st: State, e: ManagerEvent)
    requires WaitsForTheOnlyWorker(st)
    ensures WaitsForTheOnlyWorker(ManagerStep(st, e))
  {
  }

  lemma InboxKeepsCore(st: State, e: InboxEvent)
    requires HasCore(st)
    ensures HasCore(InboxStep(st, e))
  {
    hide Consistent, StaffConsistent, HandsConsistent, IsCleaning;
    var f := st.front;
    match e
    case SteerDirectly(s, t, matches) =>
      hide FrontConsistent;
      if CanSteer(st, s, t, matches) {
        SteerKeepsFront(f, st.tasks, st.staff, s, t);
      }
    case CleanupCloses(s) =>
      assert forall v :: f.Shut(s).WindowOpen(v) ==> f.WindowOpen(v);
  }

  /** Nothing but the front is touched there, and no agent appears. */
  lemma InboxOnlyFront(st: State, e: InboxEvent)
    ensures
      var st' := InboxStep(st, e);
      && st' == st.(front := st'.front)
      && st'.front.agents == st.front.agents && st'.front.activeTasks == st.front.activeTasks
  {
  }

  lemma InboxKeepsClose(st: State, e: InboxEvent)
    requires CloseConsistent(st)
    ensures CloseConsistent(InboxStep(st, e))
  {
    hide InboxStep;
    InboxOnlyFront(st, e);
  }

  lemma NextKeepsInvariant(st: State, e: Event)
    requires Invariant(st)
    ensures Invariant(Next(st, e))
  {
    hide Core, CloseConsistent, WorkerStep, ManagerStep, InboxStep;
    match e
    case AWorker(w, step) =>
      WorkersKeepCore(st, w, step);
      WorkersKeepClose(st, w, step);
      WorkersKeepWait(st, w, step);
    case TheManager(op) =>
      ManagerKeepsCore(st, op);
      ManagerKeepsClose(st, op);
      ManagerKeepsWait(st, op);
    case AtInbox(access) =>
      InboxKeepsCore(st, access);
      InboxKeepsClose(st, access);
      InboxOnlyFront(st, access);
  }

  lemma {:induction false} RunKeepsInvariant(st: State, events: seq<Event>)
    requires Invariant(st)
    ensures Invariant(Run(st, events))
    decreases |events|
  {
    hide Invariant, Next;
    if events != [] {
      NextKeepsInvariant(st, events[0]);
      RunKeepsInvariant(Next(st, events[0]), events[1..]);
    }
  }

  lemma ReachableIsConsistent(events: seq<Event>)
    ensures Invariant(Run(INITIAL, events))
  {
    assert Invariant(INITIAL);
    RunKeepsInvariant(INITIAL, events);
  }

  // ----- what follows for every run of the manager

  /**
    A session never has two unfinished workers, so no two of its tasks are processed at the
    same time, whatever was stopped, cleared, closed, rejected or accepted again before.
   */
  lemma OneWorkerPerSession(events: seq<Event>, w1: WorkerId, w2: WorkerId)
    requires var y := Run(INITIAL, events).staff;
             y.Unfinished(w1) && y.Unfinished(w2) && y.workers[w1].session == y.workers[w2].session
    ensures w1 == w2
  {
    hide Run, Consistent, HandsConsistent, FrontConsistent, CloseConsistent;
    ReachableIsConsistent(events);
  }

  /**
    An accepted task is in a mapped queue of its own session's, listed there once, or in the
    hands of the one worker that holds it, or gone with its future settled; a queue holds at
    most eight tasks, and one that is not mapped holds none.
   */
  lemma EveryTaskIsAccountedFor(events: seq<Event>, t: TaskId)
    requires t in Run(INITIAL, events).tasks.places
    ensures
      var x, y := Run(INITIAL, events).tasks, Run(INITIAL, events).staff;
      match x.places[t]
      case InQueue(q) => q in x.queues && x.IsMapped(q) && multiset(x.queues[q].tasks)[t] == 1
      case InHands(w) => w in y.workers && y.workers[w].HoldsTask() && y.workers[w].phase.task == t
      case Gone => x.IsSettled(t)
    ensures
      var x := Run(INITIAL, events).tasks;
      forall q :: q in x.queues ==> |x.queues[q].tasks| <= 8 && (!x.IsMapped(q) ==> x.queues[q].tasks == [])
    ensures
      var x, y := Run(INITIAL, events).tasks, Run(INITIAL, events).staff;
      && (forall q :: q in x.queues && t in x.queues[q].tasks ==> x.places[t] == InQueue(q))
      && (forall w :: w in y.workers && y.workers[w].HoldsTask() && y.workers[w].phase.task == t ==>
            x.places[t] == InHands(w))
  {
    hide Run, StaffConsistent, FrontConsistent, CloseConsistent;
    ReachableIsConsistent(events);
    var x := Run(INITIAL, events).tasks;
    if x.places[t].InQueue? {
      OnceInSequence(x.queues[x.places[t].queue].tasks, t);
    }
  }

  lemma {:induction false} OnceInSequence(ts: seq<TaskId>, t: TaskId)
    requires NoDuplicates(ts) && t in ts
    ensures multiset(ts)[t] == 1
    decreases |ts|
  {
    var rest := ts[1..];
    assert ts == [ts[0]] + rest;
    if t in rest {
      assert ts[0] != t;
      OnceInSequence(rest, t);
    }
  }

  /** Steered messages wait only while a worker of their session processes, at most eight of them. */
  lemma SteeringOnlyIntoARun(events: seq<Event>, s: SessionId)
    ensures
      var st := Run(INITIAL, events);
      s in st.front.inboxes && st.front.inboxes[s].pending != [] ==>
        IsProcessing(st.staff, s) && |st.front.inboxes[s].pending| <= 8
    ensures
      var st := Run(INITIAL, events);
      forall t :: t in st.front.steered ==> t !in st.tasks.places
  {
    hide Run, StaffConsistent, HandsConsistent, CloseConsistent;
    ReachableIsConsistent(events);
    var st := Run(INITIAL, events);
    if s in st.front.inboxes && st.front.inboxes[s].pending != [] {
      assert st.front.WindowOpen(s);
    }
  }

  // ----- what becomes of steered messages

  /** A message has the fate that it waits if and only if the inbox of that session holds it, and that once. */
  ghost predicate FatesConsistent(f: Front) {
    && (forall s :: s in f.inboxes ==> NoDuplicates(f.inboxes[s].pending))
    && (forall s, t :: s in f.inboxes && t in f.inboxes[s].pending ==> t in f.steered && f.steered[t] == Waits(s))
    && (forall t :: t in f.steered && f.steered[t].Waits? ==>
          f.steered[t].session in f.inboxes && t in f.inboxes[f.steered[t].session].pending)
  }

  /** What is pending waits in an open window. */
  ghost predicate PendingIsOpen(f: Front) {
    forall s :: s in f.inboxes && f.inboxes[s].pending != [] ==> f.inboxes[s].open
  }

  /** No message is forgotten, and a message that no longer waits keeps its fate. */
  ghost predicate KeepsFates(f: Front, f': Front) {
    forall t :: t in f.steered ==> t in f'.steered && (!f.steered[t].Waits? ==> f'.steered[t] == f.steered[t])
  }

  lemma SteerKeepsFates(f: Front, s: SessionId, t: TaskId)
    requires FatesConsistent(f) && s in f.inboxes && t !in f.steered
    ensures FatesConsistent(f.Steer(s, t)) && KeepsFates(f, f.Steer(s, t))
  {
  }

  lemma EmptyKeepsFates(f: Front, s: SessionId, inbox: Inbox, applied: nat, fate: Fate)
    requires FatesConsistent(f) && s in f.inboxes && inbox.pending == [] && !fate.Waits?
    ensures FatesConsistent(f.Empty(s, inbox, applied, fate)) && KeepsFates(f, f.Empty(s, inbox, applied, fate))
  {
    var f' := f.Empty(s, inbox, applied, fate);
    forall v, t | v in f'.inboxes && t in f'.inboxes[v].pending
      ensures t in f'.steered && f'.steered[t] == Waits(v)
    {
      assert v != s && f'.inboxes[v] == f.inboxes[v] && f.steered[t] == Waits(v);
    }
  }

  lemma ShutKeepsFates(f: Front, s: SessionId)
    requires FatesConsistent(f)
    ensures FatesConsistent(f.Shut(s)) && KeepsFates(f, f.Shut(s))
  {
    hide Front.Empty;
    if s in f.inboxes {
      EmptyKeepsFates(f, s, SHUT_INBOX, 0, Dropped);
    }
  }

  lemma DropKeepsFates(f: Front, s: SessionId)
    requires FatesConsistent(f)
    ensures FatesConsistent(f.Drop(s)) && KeepsFates(f, f.Drop(s))
  {
    hide Front.Settled;
    if s in f.inboxes {
      EmptyKeepsFates(f, s, SHUT_INBOX, 0, Detached);
    }
  }

  lemma BusyKeepsFates(f: Front, s: SessionId, e: WorkerEvent)
    requires FatesConsistent(f) && PendingIsOpen(f)
    ensures FatesConsistent(BusyStep(f, s, e)) && KeepsFates(f, BusyStep(f, s, e))
  {
    hide Front.Empty, Front.Drop, Front.Shut;
    match e
    case Inject =>
      if f.WindowOpen(s) {
        EmptyKeepsFates(f, s, Inbox(true, false, []), |f.inboxes[s].pending|, Applied);
      }
    case CloseWindow(applied) =>
      if f.WindowOpen(s) {
        EmptyKeepsFates(f, s, Inbox(false, false, []), applied, Lost);
      }
    case DropAgent => DropKeepsFates(f, s);
    case DropFails => ShutKeepsFates(f, s);
    case _ =>
  }

  predicate SameInboxes(f: Front, f': Front) {
    f'.inboxes == f.inboxes && f'.steered == f.steered
  }

  lemma WorkersKeepFates(st: State, w: WorkerId, e: WorkerEvent)
    requires FatesConsistent(st.front) && PendingIsOpen(st.front)
    ensures FatesConsistent(WorkerStep(st, w, e).front) && KeepsFates(st.front, WorkerStep(st, w, e).front)
  {
    hide FatesConsistent, BusyStep;
    if w in st.staff.workers && st.staff.workers[w].phase.Busy? {
      BusyKeepsFates(st.front, st.staff.workers[w].session, e);
    } else {
      OtherPhasesLeaveInboxes(st, w, e);
      SameInboxesKeepFates(st.front, WorkerStep(st, w, e).front);
    }
  }

  lemma OtherPhasesLeaveInboxes(st: State, w: WorkerId, e: WorkerEvent)
    requires w in st.staff.workers ==> !st.staff.workers[w].phase.Busy?
    ensures SameInboxes(st.front, WorkerStep(st, w, e).front)
  {
  }

  lemma SameInboxesKeepFates(f: Front, f': Front)
    requires SameInboxes(f, f')
    ensures KeepsFates(f, f') && (FatesConsistent(f) ==> FatesConsistent(f'))
  {
  }

  lemma ManagerKeepsFates(st: State, e: ManagerEvent)
    requires FatesConsistent(st.front)
    ensures FatesConsistent(ManagerStep(st, e).front) && KeepsFates(st.front, ManagerStep(st, e).front)
  {
    hide FatesConsistent, KeepsFates, ManagerStep, Front.Drop;
    match e
    case Submit(s, t, newQueue, newWorker, matches) => SubmitKeepsFates(st, e);
    case AgentCleaned(s, ok) => CleanedKeepsFates(st, s, ok);
    case WaitEnds(w, end, newWorker) =>
      WaitLeavesInboxes(st, w, end, newWorker);
      SameInboxesKeepFates(st.front, ManagerStep(st, e).front);
    case _ =>
      OperationsLeaveInboxes(st, e);
      SameInboxesKeepFates(st.front, ManagerStep(st, e).front);
  }

  lemma SubmitKeepsFates(st: State, e: ManagerEvent)
    requires FatesConsistent(st.front) && e.Submit?
    ensures FatesConsistent(ManagerStep(st, e).front) && KeepsFates(st.front, ManagerStep(st, e).front)
  {
    hide FatesConsistent, KeepsFates, Front.Steer;
    SameInboxesKeepFates(st.front, st.front);
    if e.task !in st.front.steered && e.session in st.front.inboxes {
      SteerKeepsFates(st.front, e.session, e.task);
    }
  }

  lemma CleanedKeepsFates(st: State, s: SessionId, ok: bool)
    requires FatesConsistent(st.front)
    ensures
      var st' := ManagerStep(st, AgentCleaned(s, ok));
      FatesConsistent(st'.front) && KeepsFates(st.front, st'.front)
  {
    hide FatesConsistent, KeepsFates, Front.Drop;
    DropKeepsFates(st.front, s);
    SameInboxesKeepFates(st.front, st.front);
    SameInboxesKeepFates(st.front, st.front.(agents := st.front.agents - {s}));
  }

  lemma WaitLeavesInboxes(st: State, w: WorkerId, end: WaitEnd, newWorker: WorkerId)
    ensures SameInboxes(st.front, ManagerStep(st, WaitEnds(w, end, newWorker)).front)
  {
    hide StopEnds;
    assert forall s, y :: StopEnds(st, s, y, newWorker).front == st.front by {
      StopEndsOnlyStaff(st, newWorker);
    }
  }

  lemma OperationsLeaveInboxes(st: State, e: ManagerEvent)
    requires !e.Submit? && !e.AgentCleaned? && !e.WaitEnds?
    ensures SameInboxes(st.front, ManagerStep(st, e).front)
  {
  }

  lemma NextKeepsFates(st: State, e: Event)
    requires Invariant(st) && FatesConsistent(st.front)
    ensures FatesConsistent(Next(st, e).front) && KeepsFates(st.front, Next(st, e).front)
  {
    assert PendingIsOpen(st.front) by {
      hide CloseConsistent, Consistent, HandsConsistent, StaffConsistent;
    }
    hide Invariant, FatesConsistent, KeepsFates, PendingIsOpen, WorkerStep, ManagerStep, InboxStep;
    match e
    case AWorker(w, step) => WorkersKeepFates(st, w, step);
    case TheManager(op) => ManagerKeepsFates(st, op);
    case AtInbox(access) => InboxKeepsFates(st, access);
  }

  lemma InboxKeepsFates(st: State, e: InboxEvent)
    requires FatesConsistent(st.front)
    ensures FatesConsistent(InboxStep(st, e).front) && KeepsFates(st.front, InboxStep(st, e).front)
  {
    hide FatesConsistent, KeepsFates, Front.Steer, Front.Shut;
    SameInboxesKeepFates(st.front, st.front);
    match e
    case SteerDirectly(s, t, matches) =>
      if CanSteer(st, s, t, matches) {
        SteerKeepsFates(st.front, s, t);
      }
    case CleanupCloses(s) => ShutKeepsFates(st.front, s);
  }

  /** The message is among the first so many that wait in the inbox. */
  predicate IsAmongFirst(f: Front, s: SessionId, t: TaskId, n: nat)
    requires s in f.inboxes
  {
    t in f.inboxes[s].pending[..Min(n, |f.inboxes[s].pending|)]
  }

  /** A worker that processes the session takes this step. */
  predicate IsStepOf(st: State, e: Event, s: SessionId) {
    && e.AWorker? && e.worker in st.staff.workers
    && st.staff.workers[e.worker].session == s && st.staff.workers[e.worker].phase.Busy?
  }

  /** The run of the session takes the message, or notifies it after closing its window. */
  predicate IsTaken(st: State, e: Event, s: SessionId, t: TaskId)
    requires s in st.front.inboxes
  {
    IsStepOf(st, e, s) && (e.step.Inject? || (e.step.CloseWindow? && IsAmongFirst(st.front, s, t, e.step.applied)))
  }

  /** The run of the session closes its window and raises before it notifies the message. */
  predicate IsLost(st: State, e: Event, s: SessionId, t: TaskId)
    requires s in st.front.inboxes
  {
    IsStepOf(st, e, s) && e.step.CloseWindow? && !IsAmongFirst(st.front, s, t, e.step.applied)
  }

  /** The cleanup of the session's agent closes the inbox. */
  predicate IsClosed(st: State, e: Event, s: SessionId) {
    e == AtInbox(CleanupCloses(s)) && IsCleaning(st, s)
  }

  /** The cleanup of the session's agent has ended, and the inbox goes with the agent. */
  predicate IsUnregistered(st: State, e: Event, s: SessionId) {
    e == TheManager(AgentCleaned(s, true)) && st.lock == CleaningAgent(s)
  }

  /**
    The steps that end a message's wait: it is applied when the run takes it, applied or lost
    when the run closes its window, dropped when a cleanup closes the inbox, and detached when
    the inbox is unregistered.
   */
  lemma HowAWaitEnds(st: State, e: Event, s: SessionId, t: TaskId)
    requires Invariant(st) && FatesConsistent(st.front) && t in st.front.steered && st.front.steered[t] == Waits(s)
    ensures t in Next(st, e).front.steered
    ensures
      var fate := Next(st, e).front.steered[t];
      && (fate == Applied <==> IsTaken(st, e, s, t)) && (fate == Lost <==> IsLost(st, e, s, t))
      && (fate == Dropped <==> IsClosed(st, e, s)) && (fate == Detached <==> IsUnregistered(st, e, s))
  {
    assert PendingIsOpen(st.front) by {
      hide CloseConsistent, Consistent, HandsConsistent, StaffConsistent;
    }
    hide Invariant, WorkerStep, ManagerStep, InboxStep, PendingIsOpen, IsAmongFirst;
    match e
    case AWorker(w, step) => HowARunEndsAWait(st, w, step, s, t);
    case TheManager(op) => HowTheManagerEndsAWait(st, op, s, t);
    case AtInbox(access) => HowACloseEndsAWait(st, access, s, t);
  }

  lemma HowARunEndsAWait(st: State, w: WorkerId, e: WorkerEvent, s: SessionId, t: TaskId)
    requires FatesConsistent(st.front) && PendingIsOpen(st.front)
    requires t in st.front.steered && st.front.steered[t] == Waits(s)
    ensures t in WorkerStep(st, w, e).front.steered
    ensures
      var fate := WorkerStep(st, w, e).front.steered[t];
      && (fate == Applied <==> IsTaken(st, AWorker(w, e), s, t))
      && (fate == Lost <==> IsLost(st, AWorker(w, e), s, t)) && fate != Dropped && fate != Detached
  {
    hide BusyStep;
    if w in st.staff.workers && st.staff.workers[w].phase.Busy? {
      hide Outcome, IsAmongFirst, FatesConsistent;
      HowABusyStepEndsAWait(st.front, st.staff.workers[w].session, e, s, t);
    } else {
      OtherPhasesLeaveInboxes(st, w, e);
      hide WorkerStep, IsAmongFirst;
    }
  }

  lemma HowABusyStepEndsAWait(f: Front, v: SessionId, e: WorkerEvent, s: SessionId, t: TaskId)
    requires FatesConsistent(f) && PendingIsOpen(f) && t in f.steered && f.steered[t] == Waits(s)
    ensures t in BusyStep(f, v, e).steered
    ensures
      var fate := BusyStep(f, v, e).steered[t];
      && (fate == Applied <==> v == s && (e.Inject? || (e.CloseWindow? && IsAmongFirst(f, s, t, e.applied))))
      && (fate == Lost <==> v == s && e.CloseWindow? && !IsAmongFirst(f, s, t, e.applied))
      && fate != Dropped && fate != Detached
  {
    if e.Inject? && v == s {
      var pending := f.inboxes[s].pending;
      assert pending[..|pending|] == pending;
    }
  }

  lemma HowTheManagerEndsAWait(st: State, e: ManagerEvent, s: SessionId, t: TaskId)
    requires FatesConsistent(st.front) && t in st.front.steered && st.front.steered[t] == Waits(s)
    ensures t in ManagerStep(st, e).front.steered
    ensures
      var fate := ManagerStep(st, e).front.steered[t];
      fate == if IsUnregistered(st, TheManager(e), s) then Detached else Waits(s)
  {
    if e.AgentCleaned? {
      HowACleanupEndsAWait(st, e.session, e.ok, s, t);
    } else if e.Submit? {
      hide FatesConsistent;
    } else {
      hide ManagerStep, FatesConsistent;
      if e.WaitEnds? {
        WaitLeavesInboxes(st, e.worker, e.end, e.newWorker);
      } else {
        OperationsLeaveInboxes(st, e);
      }
    }
  }

  lemma HowACleanupEndsAWait(st: State, v: SessionId, ok: bool, s: SessionId, t: TaskId)
    requires FatesConsistent(st.front) && t in st.front.steered && st.front.steered[t] == Waits(s)
    ensures
      var f := ManagerStep(st, AgentCleaned(v, ok)).front;
      && t in f.steered
      && f.steered[t] == if IsUnregistered(st, TheManager(AgentCleaned(v, ok)), s) then Detached else Waits(s)
  {
    hide FatesConsistent, Front.Drop;
    HowADropEndsAWait(st.front, v, s, t);
  }

  lemma HowADropEndsAWait(f: Front, v: SessionId, s: SessionId, t: TaskId)
    requires FatesConsistent(f) && t in f.steered && f.steered[t] == Waits(s)
    ensures t in f.Drop(v).steered && f.Drop(v).steered[t] == if v == s then Detached else Waits(s)
  {
  }

  lemma HowACloseEndsAWait(st: State, e: InboxEvent, s: SessionId, t: TaskId)
    requires FatesConsistent(st.front) && t in st.front.steered && st.front.steered[t] == Waits(s)
    ensures t in InboxStep(st, e).front.steered
    ensures
      InboxStep(st, e).front.steered[t] == if IsClosed(st, AtInbox(e), s) then Dropped else Waits(s)
  {
    hide IsCleaning;
  }

  lemma {:induction false} RunKeepsFates(st: State, events: seq<Event>)
    requires Invariant(st) && FatesConsistent(st.front)
    ensures FatesConsistent(Run(st, events).front) && KeepsFates(st.front, Run(st, events).front)
    decreases |events|
  {
    hide Invariant, Next, FatesConsistent;
    if events != [] {
      NextKeepsInvariant(st, events[0]);
      NextKeepsFates(st, events[0]);
      RunKeepsFates(Next(st, events[0]), events[1..]);
    }
  }

  lemma ReachableFates(events: seq<Event>)
    ensures FatesConsistent(Run(INITIAL, events).front)
  {
    assert Invariant(INITIAL) && FatesConsistent(INITIAL.front);
    RunKeepsFates(INITIAL, events);
  }

  /**
    In every run a message that an inbox accepted waits in that inbox, once, or has met another
    fate, and then it keeps that one. No message waits without a worker that processes its
    session.
   */
  lemma EverySteeredMessageHasOneFate(events: seq<Event>, more: seq<Event>, t: TaskId)
    requires t in Run(INITIAL, events).front.steered
    ensures
      var f := Run(INITIAL, events).front;
      forall s :: f.steered[t] == Waits(s) <==> s in f.inboxes && multiset(f.inboxes[s].pending)[t] == 1
    ensures
      var f := Run(INITIAL, events).front;
      forall s :: s in f.inboxes && t in f.inboxes[s].pending ==> f.steered[t] == Waits(s)
    ensures
      var st := Run(INITIAL, events);
      st.front.steered[t].Waits? ==> IsProcessing(st.staff, st.front.steered[t].session)
    ensures
      var f, f' := Run(INITIAL, events).front, Run(Run(INITIAL, events), more).front;
      t in f'.steered && (!f.steered[t].Waits? ==> f'.steered[t] == f.steered[t])
  {
    hide Run, Consistent, StaffConsistent, HandsConsistent, CloseConsistent;
    ReachableIsConsistent(events);
    ReachableFates(events);
    var st := Run(INITIAL, events);
    RunKeepsFates(st, more);
    forall s | s in st.front.inboxes && t in st.front.inboxes[s].pending
      ensures multiset(st.front.inboxes[s].pending)[t] == 1
    {
      OnceInSequence(st.front.inboxes[s].pending, t);
    }
    if st.front.steered[t].Waits? {
      assert st.front.WindowOpen(st.front.steered[t].session);
    }
  }

  // ----- completion futures

  /** The outcome of a settled future never changes. */
  predicate SameOutcome(x: Tasks, x': Tasks, t: TaskId) {
    x.IsSettled(t) ==> t in x'.futures && x'.futures[t] == x.futures[t]
  }

  lemma WorkersSettleOnce(st: State, w: WorkerId, e: WorkerEvent, t: TaskId)
    ensures SameOutcome(st.tasks, WorkerStep(st, w, e).tasks, t)
  {
  }

  lemma WaitSettlesOnce(st: State, w: WorkerId, end: WaitEnd, newWorker: WorkerId, t: TaskId)
    ensures SameOutcome(st.tasks, ManagerStep(st, WaitEnds(w, end, newWorker)).tasks, t)
  {
  }

  lemma OthersSettleOnce(st: State, e: ManagerEvent, t: TaskId)
    requires !e.WaitEnds?
    ensures SameOutcome(st.tasks, ManagerStep(st, e).tasks, t)
  {
  }

  lemma ManagerSettlesOnce(st: State, e: ManagerEvent, t: TaskId)
    ensures SameOutcome(st.tasks, ManagerStep(st, e).tasks, t)
  {
    hide ManagerStep;
    match e
    case WaitEnds(w, end, newWorker) => WaitSettlesOnce(st, w, end, newWorker, t);
    case _ => OthersSettleOnce(st, e, t);
  }

  lemma {:induction false} FuturesSettleOnce(st: State, events: seq<Event>, t: TaskId)
    ensures SameOutcome(st.tasks, Run(st, events).tasks, t)
    decreases |events|
  {
    hide WorkerStep, ManagerStep, InboxStep;
    if events != [] {
      match events[0] {
        case AWorker(w, e) => WorkersSettleOnce(st, w, e, t);
        case TheManager(e) => ManagerSettlesOnce(st, e, t);
        case AtInbox(e) => InboxOnlyFront(st, e);
      }
      FuturesSettleOnce(Next(st, events[0]), events[1..], t);
    }
  }

  // ----- acceptance

  function Accepted(st: State): set<TaskId> {
    st.tasks.places.Keys + st.front.steered.Keys
  }

  /**
    A submission is rejected, or it is appended to the session's queue, or it is appended to
    the session's inbox: exactly one of the three.
   */
  lemma SubmissionGoesToOnePlace(
    st: State, s: SessionId, t: TaskId, newQueue: QueueId, newWorker: WorkerId, matches: bool)
    requires Invariant(st) && t !in st.tasks.futures && t !in st.front.steered
    requires newQueue !in st.tasks.queues && newWorker !in st.staff.workers
    ensures
      var st' := SubmitTask(st, s, t, newQueue, newWorker, matches);
      var rejected := st'.tasks == st.tasks && st'.front == st.front;
      var queued := st'.front == st.front && st'.tasks.Queued(s) == st.tasks.Queued(s) + [t]
                    && st'.tasks.futures == st.tasks.futures[t := Pending] && st'.staff.HasLiveWorker(s);
      var steered := st'.tasks == st.tasks && s in st.front.inboxes
                     && st'.front.inboxes[s].pending == st.front.inboxes[s].pending + [t]
                     && st'.front == st.front.(inboxes := st.front.inboxes[s := st'.front.inboxes[s]],
                                               steered := st.front.steered[t := Waits(s)]);
      && (t in Accepted(st') <==> queued || steered)
      && (t !in Accepted(st') <==> rejected)
      && !(queued && steered)
  {
    hide Invariant, Consistent, Tasks.Put, Tasks.EnsureQueue;
    assert t !in st.tasks.places by {
      InvariantParts(st);
      NewTaskIsNowhere(st.tasks, t);
    }
    if st.accepting {
      PutPlaces(st.tasks, s, t, newQueue);
    }
  }

  lemma PutPlaces(x: Tasks, s: SessionId, t: TaskId, newQueue: QueueId)
    requires t !in x.places && newQueue !in x.queues
    ensures
      var x1 := x.EnsureQueue(s, newQueue);
      && x1.places == x.places && x1.futures == x.futures && x1.Queued(s) == x.Queued(s)
      && (x1.HasQueue(s) ==>
            && t in x1.Put(s, t).places && x1.Put(s, t).Queued(s) == x.Queued(s) + [t]
            && x1.Put(s, t).futures == x.futures[t := Pending])
  {
  }

  lemma TakeAcceptsNothing(st: State, w: WorkerId, s: SessionId, q: QueueId, e: WorkerEvent)
    requires PlacesConsistent(st.tasks) && w in st.staff.workers
    ensures SameAccepted(st, WaitingStep(st, w, s, q, e))
  {
    if q in st.tasks.queues && st.tasks.queues[q].tasks != [] {
      assert st.tasks.queues[q].tasks[0] in st.tasks.queues[q].tasks;
      assert st.tasks.queues[q].tasks[0] in st.tasks.places;
    }
  }

  lemma LeaveAcceptsNothing(st: State, w: WorkerId, s: SessionId, q: QueueId, t: TaskId, skipped: bool, raised: bool)
    requires w in st.staff.workers && t in st.tasks.places
    ensures SameAccepted(st, Leave(st, w, s, q, t, skipped, raised))
  {
  }

  lemma OtherPhasesAcceptNothing(st: State, w: WorkerId, e: WorkerEvent)
    requires w in st.staff.workers
    requires !st.staff.workers[w].phase.Waiting? && !st.staff.workers[w].phase.Leaving?
    ensures SameAccepted(st, WorkerStep(st, w, e))
  {
    hide WaitingStep, Leave;
  }

  lemma WorkersAcceptNothing(st: State, w: WorkerId, e: WorkerEvent)
    requires Consistent(st.tasks) && HandsConsistent(st.tasks, st.staff)
    ensures SameAccepted(st, WorkerStep(st, w, e))
  {
    if w in st.staff.workers {
      var s := st.staff.workers[w].session;
      match st.staff.workers[w].phase
      case Waiting(q) => TakeAcceptsNothing(st, w, s, q, e);
      case Leaving(q, t, skipped) =>
        HeldHasFuture(st.tasks, st.staff, w);
        hide Consistent, HandsConsistent, Leave, SameAccepted;
        if e.LeaveTask? {
          LeaveAcceptsNothing(st, w, s, q, t, skipped, e.raised);
        }
      case _ =>
        hide *;
        OtherPhasesAcceptNothing(st, w, e);
    }
  }

  /** Nothing is put into a place, and nothing is steered. */
  predicate SameAccepted(st: State, st': State) {
    st'.tasks.places.Keys == st.tasks.places.Keys && st'.front.steered.Keys == st.front.steered.Keys
  }

  lemma WaitAcceptsNothing(st: State, w: WorkerId, end: WaitEnd, newWorker: WorkerId)
    ensures SameAccepted(st, ManagerStep(st, WaitEnds(w, end, newWorker)))
  {
    hide WaitForShutdown, StopEnds;
    assert forall s, y ::
        StopEnds(st, s, y, newWorker).tasks == st.tasks && StopEnds(st, s, y, newWorker).front == st.front by {
      StopEndsOnlyStaff(st, newWorker);
    }
  }

  lemma StopEndsOnlyStaff(st: State, newWorker: WorkerId)
    ensures forall s, y ::
      StopEnds(st, s, y, newWorker).tasks == st.tasks && StopEnds(st, s, y, newWorker).front == st.front
  {
  }

  lemma ClosedSubmissionAcceptsNothing(
    st: State, s: SessionId, t: TaskId, newQueue: QueueId, newWorker: WorkerId, matches: bool)
    requires !st.accepting || st.lock != Free
    ensures ManagerStep(st, Submit(s, t, newQueue, newWorker, matches)) == st
  {
  }

  lemma OtherOperationsAcceptNothing(st: State, e: ManagerEvent)
    requires !e.Submit? && !e.WaitEnds?
    ensures SameAccepted(st, ManagerStep(st, e))
  {
    hide SubmitTask, WaitEnded, WaitForShutdown, CanEnd;
  }

  lemma ManagerAcceptsOnlySubmissions(st: State, e: ManagerEvent)
    requires !e.Submit? || !st.accepting || st.lock != Free
    ensures SameAccepted(st, ManagerStep(st, e))
  {
    hide ManagerStep;
    match e
    case Submit(s, t, newQueue, newWorker, matches) =>
      ClosedSubmissionAcceptsNothing(st, s, t, newQueue, newWorker, matches);
    case WaitEnds(w, end, newWorker) => WaitAcceptsNothing(st, w, end, newWorker);
    case _ => OtherOperationsAcceptNothing(st, e);
  }

  lemma InvariantParts(st: State)
    requires Invariant(st)
    ensures Consistent(st.tasks) && HandsConsistent(st.tasks, st.staff) && StaffConsistent(st.staff)
  {
  }

  /**
    A queue only accepts a submission that gets the lock while the gate is open. An inbox only
    accepts while its window is open and has room: such a submission, or a direct message that
    gets the lock, for which the gate does not matter.
   */
  lemma WhatIsAccepted(st: State, e: Event)
    requires Invariant(st)
    ensures
      var st' := Next(st, e);
      var submitted := e.TheManager? && e.operation.Submit? && st.accepting && st.lock == Free;
      && (st'.tasks.places.Keys != st.tasks.places.Keys ==> submitted)
      && (st'.front.steered.Keys != st.front.steered.Keys ==>
            || (submitted && st.front.HasRoom(e.operation.session))
            || (e.AtInbox? && e.access.SteerDirectly?
                && CanSteer(st, e.access.session, e.access.task, e.access.matches)))
  {
    hide Invariant, WorkerStep, ManagerStep, InboxStep;
    match e
    case AWorker(w, step) =>
      assert Consistent(st.tasks) && HandsConsistent(st.tasks, st.staff) by { InvariantParts(st); }
      WorkersAcceptNothing(st, w, step);
    case TheManager(op) =>
      if op.Submit? && st.accepting && st.lock == Free {
        SteersOnlyIntoRoom(st, op);
      } else {
        ManagerAcceptsOnlySubmissions(st, op);
      }
    case AtInbox(access) => InboxAccepts(st, access);
  }

  lemma SteersOnlyIntoRoom(st: State, e: ManagerEvent)
    requires e.Submit?
    ensures ManagerStep(st, e).front.steered.Keys != st.front.steered.Keys ==> st.front.HasRoom(e.session)
  {
  }

  lemma InboxAccepts(st: State, e: InboxEvent)
    ensures InboxStep(st, e).tasks == st.tasks
    ensures InboxStep(st, e).front.steered.Keys ==
            st.front.steered.Keys +
              if e.SteerDirectly? && CanSteer(st, e.session, e.task, e.matches) then {e.task} else {}
  {
    hide IsCleaning;
  }

  /**
    So with the gate shut something is accepted exactly when a direct message of the active
    task's user gets the lock and finds an open window with room.
   */
  lemma WhenAShutGateAccepts(st: State, e: Event)
    requires Invariant(st) && !st.accepting
    ensures Accepted(Next(st, e)) != Accepted(st) <==>
            e.AtInbox? && e.access.SteerDirectly? && CanSteer(st, e.access.session, e.access.task, e.access.matches)
  {
    hide WorkerStep, ManagerStep, InboxStep, CanSteer;
    WhatIsAccepted(st, e);
    if e.AtInbox? {
      InboxAccepts(st, e.access);
      if e.access.SteerDirectly? && CanSteer(st, e.access.session, e.access.task, e.access.matches) {
        SteeredIsNew(st, e.access.session, e.access.task, e.access.matches);
        assert e.access.task in Accepted(Next(st, e));
      }
    }
  }

  lemma SteeredIsNew(st: State, s: SessionId, t: TaskId, matches: bool)
    requires Invariant(st) && CanSteer(st, s, t, matches)
    ensures t !in Accepted(st)
  {
    InvariantParts(st);
    NewTaskIsNowhere(st.tasks, t);
  }

  // ----- closing

  /**
    After a close that returned True, directly or through the deferred finaliser, no worker is
    unfinished, no queue is mapped and no agent is active; until `initialize` runs again that
    stays so and nothing is accepted.
   */
  lemma CloseTrueMeansQuiet(events: seq<Event>, more: seq<Event>)
    requires Run(INITIAL, events).closed
    requires forall e :: e in more ==> e != TheManager(Initialize)
    ensures
      var st, st' := Run(INITIAL, events), Run(Run(INITIAL, events), more);
      && st'.closed && !st'.accepting
      && (forall w :: !st'.staff.Unfinished(w)) && st'.tasks.queueOf == map[] && st'.front.agents == {}
      && Accepted(st') == Accepted(st)
  {
    hide Run, Core, Accepted;
    ReachableIsConsistent(events);
    ClosedStaysClosed(Run(INITIAL, events), more);
  }

  lemma {:induction false} ClosedStaysClosed(st: State, events: seq<Event>)
    requires Invariant(st) && st.closed
    requires forall e :: e in events ==> e != TheManager(Initialize)
    ensures Run(st, events).closed && Invariant(Run(st, events)) && Accepted(Run(st, events)) == Accepted(st)
    decreases |events|
  {
    hide Core, Accepted, WorkerStep, ManagerStep, InboxStep;
    if events != [] {
      var st' := Next(st, events[0]);
      NextKeepsInvariant(st, events[0]);
      assert events[0] in events;
      ClosedAcceptsNothing(st, events[0]);
      OnlyInitializeReopens(st, events[0]);
      forall e | e in events[1..] ensures e != TheManager(Initialize) {
        assert e in events;
      }
      ClosedStaysClosed(st', events[1..]);
    }
  }

  /** Without an unfinished worker no window is open, so there is nothing to steer into either. */
  lemma ClosedAcceptsNothing(st: State, e: Event)
    requires Invariant(st) && st.closed
    ensures Accepted(Next(st, e)) == Accepted(st)
  {
    hide Accepted, Next, Consistent, HandsConsistent;
    WhenAShutGateAccepts(st, e);
    if e.AtInbox? && e.access.SteerDirectly? && CanSteer(st, e.access.session, e.access.task, e.access.matches) {
      OpenWindowHasWorker(st, e.access.session);
      assert false;
    }
  }

  lemma OpenWindowHasWorker(st: State, s: SessionId)
    requires FrontConsistent(st.front, st.tasks, st.staff) && st.front.WindowOpen(s)
    ensures exists w :: st.staff.Unfinished(w)
  {
    var w :| w in st.staff.workers && st.staff.workers[w].session == s && st.staff.workers[w].phase.Busy?;
    assert st.staff.Unfinished(w);
  }

  lemma OnlyInitializeReopens(st: State, e: Event)
    requires CloseConsistent(st) && st.closed && e != TheManager(Initialize)
    ensures Next(st, e).closed
  {
    match e
    case AWorker(w, step) => WorkersOnlyFinish(st, w, step);
    case TheManager(op) =>
    case AtInbox(access) => InboxOnlyFront(st, access);
  }

  // ----- an inbox that a cleanup closed

  /** The two steps after which the session gets a new inbox */
  predicate DropsInbox(st: State, e: Event, s: SessionId) {
    || (e == TheManager(AgentCleaned(s, true)) && st.lock == CleaningAgent(s))
    || (e.AWorker? && e.step.DropAgent? && e.worker in st.staff.workers && st.staff.workers[e.worker].session == s)
  }

  predicate KeepsInbox(st: State, events: seq<Event>, s: SessionId)
    decreases |events|
  {
    events == [] || (!DropsInbox(st, events[0], s) && KeepsInbox(Next(st, events[0]), events[1..], s))
  }

  lemma WorkersKeepShut(st: State, w: WorkerId, e: WorkerEvent, s: SessionId)
    requires st.front.inboxes.Keys >= {s} && st.front.inboxes[s] == SHUT_INBOX && !DropsInbox(st, AWorker(w, e), s)
    ensures s in WorkerStep(st, w, e).front.inboxes && WorkerStep(st, w, e).front.inboxes[s] == SHUT_INBOX
  {
    if w in st.staff.workers {
      var v := st.staff.workers[w].session;
      match st.staff.workers[w].phase
      case Waiting(q) =>
        hide WorkerStep;
        WaitingLeavesInboxes(st, w, v, q, e);
        assert WorkerStep(st, w, e).front.inboxes == st.front.inboxes by {
          WaitingIsWaiting(st, w, e);
        }
      case Leaving(q, t, skipped) =>
        hide Leave;
        if e.LeaveTask? {
          LeaveLeavesInboxes(st, w, v, q, t, skipped, e.raised);
        }
      case _ =>
        hide WaitingStep, Leave;
    }
  }

  lemma WaitingIsWaiting(st: State, w: WorkerId, e: WorkerEvent)
    requires w in st.staff.workers && st.staff.workers[w].phase.Waiting?
    ensures WorkerStep(st, w, e) == WaitingStep(st, w, st.staff.workers[w].session, st.staff.workers[w].phase.queue, e)
  {
  }

  lemma WaitingLeavesInboxes(st: State, w: WorkerId, s: SessionId, q: QueueId, e: WorkerEvent)
    requires w in st.staff.workers
    ensures WaitingStep(st, w, s, q, e).front.inboxes == st.front.inboxes
  {
  }

  lemma LeaveLeavesInboxes(st: State, w: WorkerId, s: SessionId, q: QueueId, t: TaskId, skipped: bool, raised: bool)
    requires w in st.staff.workers
    ensures Leave(st, w, s, q, t, skipped, raised).front.inboxes == st.front.inboxes
  {
  }

  lemma ManagerKeepsShut(st: State, e: ManagerEvent, s: SessionId)
    requires st.front.inboxes.Keys >= {s} && st.front.inboxes[s] == SHUT_INBOX && !DropsInbox(st, TheManager(e), s)
    ensures s in ManagerStep(st, e).front.inboxes && ManagerStep(st, e).front.inboxes[s] == SHUT_INBOX
  {
  }

  /** Every run that does not drop a closed inbox leaves it closed: its session cannot be steered any more. */
  lemma {:induction false} ShutInboxStaysShut(st: State, events: seq<Event>, s: SessionId)
    requires st.front.inboxes.Keys >= {s} && st.front.inboxes[s] == SHUT_INBOX && KeepsInbox(st, events, s)
    ensures s in Run(st, events).front.inboxes && Run(st, events).front.inboxes[s] == SHUT_INBOX
    ensures !Run(st, events).front.WindowOpen(s)
    decreases |events|
  {
    hide WorkerStep, ManagerStep, DropsInbox;
    if events != [] {
      match events[0] {
        case AWorker(w, e) => WorkersKeepShut(st, w, e, s);
        case TheManager(e) => ManagerKeepsShut(st, e, s);
        case AtInbox(e) =>
      }
      ShutInboxStaysShut(Next(st, events[0]), events[1..], s);
    }
  }

  /**
    A close drops agents but not their inboxes: from every state in which it cleans up the last
    agent, it can return True and `initialize` can reopen the manager with the inbox closed.
   */
  lemma ReopenedWithShutInbox(st: State, s: SessionId)
    requires st.lock == ClosingAgents({s}, {}) && !st.accepting && st.finalizer.None?
    requires st.front.agents == {s} && s in st.front.inboxes
    ensures
      var events := [
        AtInbox(CleanupCloses(s)), TheManager(AgentCleaned(s, true)), TheManager(CloseReturns), TheManager(Initialize)];
      var st' := Run(st, events);
      && Run(st, events[..3]).closed && st'.accepting && st'.front.agents == {}
      && st'.front.inboxes == st.front.inboxes[s := SHUT_INBOX]
  {
    var e0, e1, e2, e3 :=
      AtInbox(CleanupCloses(s)), TheManager(AgentCleaned(s, true)), TheManager(CloseReturns), TheManager(Initialize);
    var st1 := st.(front := st.front.Shut(s));
    var st2 := st1.(lock := ClosingAgents({}, {}), front := st1.front.(agents := {}));
    var st3 := st2.(lock := Free, closed := true);
    var st4 := st3.(accepting := true, closed := false);
    assert Next(st, e0) == st1;
    assert Next(st1, e1) == st2 by {
      assert {s} - {s} == {};
    }
    assert Next(st2, e2) == st3;
    assert Next(st3, e3) == st4;
    hide Next;
    RunFour(st, e0, e1, e2, e3);
    var events := [e0, e1, e2, e3];
    assert events[..3] == [e0, e1, e2];
  }

  /** A run that begins has an open window if and only if the inbox that is registered for its session is not shut. */
  lemma OpensUnlessShut(st: State, w: WorkerId)
    requires Invariant(st) && w in st.staff.workers && st.staff.workers[w].phase.Busy?
    ensures
      var s := st.staff.workers[w].session;
      Next(st, AWorker(w, OpenWindow)).front.WindowOpen(s) <==> !st.front.IsShut(s)
  {
    hide Consistent, StaffConsistent, HandsConsistent, CloseConsistent, ManagerStep, InboxStep;
  }

  lemma RunFour(st: State, e0: Event, e1: Event, e2: Event, e3: Event)
    ensures Run(st, [e0, e1, e2]) == Next(Next(Next(st, e0), e1), e2)
    ensures Run(st, [e0, e1, e2, e3]) == Next(Next(Next(Next(st, e0), e1), e2), e3)
  {
    hide Next;
    var three, four := [e0, e1, e2], [e0, e1, e2, e3];
    RunTwo(st, three, 0);
    RunTwo(st, four, 0);
    RunTwo(Next(Next(st, e0), e1), four, 2);
    assert three[0..] == three && four[0..] == four && three[2..][1..] == [] && four[4..] == [];
  }

  // ----- agents are cleaned up at rest, with one exception

  predicate HasUnfinishedWorker(y: Staff, s: SessionId) {
    exists w :: w in y.workers && y.Unfinished(w) && y.workers[w].session == s
  }

  lemma UnfinishedIsLive(y: Staff, s: SessionId)
    requires StaffConsistent(y)
    ensures HasUnfinishedWorker(y, s) <==> y.HasLiveWorker(s)
  {
    if y.HasLiveWorker(s) {
      assert y.Unfinished(y.workerOf[s]);
    }
  }

  lemma ClearCleansAtRest(st: State, s: SessionId, v: SessionId)
    requires !IsCleaning(st, s) && IsCleaning(ManagerStep(st, Clear(v)), s)
    ensures !ManagerStep(st, Clear(v)).staff.HasLiveWorker(s)
  {
  }

  lemma WaitCleansAtRest(st: State, s: SessionId, w: WorkerId, end: WaitEnd, newWorker: WorkerId)
    requires WaitsForTheOnlyWorker(st)
    requires !IsCleaning(st, s) && IsCleaning(ManagerStep(st, WaitEnds(w, end, newWorker)), s)
    ensures !ManagerStep(st, WaitEnds(w, end, newWorker)).staff.HasLiveWorker(s)
  {
  }

  lemma CloseCleansAtRest(st: State, s: SessionId, e: ManagerEvent)
    requires CloseConsistent(st) && (e == Gathered || e == FinalizerRuns)
    requires !IsCleaning(st, s) && IsCleaning(ManagerStep(st, e), s)
    ensures !HasUnfinishedWorker(ManagerStep(st, e).staff, s)
  {
    var st' := ManagerStep(st, e);
    if HasUnfinishedWorker(st'.staff, s) {
      var w :| w in st'.staff.workers && st'.staff.Unfinished(w) && st'.staff.workers[w].session == s;
      assert st.staff.Unfinished(w);
    }
  }

  /**
    An agent's cleanup starts while a worker of its session is unfinished exactly when it is
    a deferred session cleanup that gets the lock after the session has been given a new worker.
   */
  lemma WhenCleanupMeetsAWorker(st: State, e: ManagerEvent, s: SessionId)
    requires Invariant(st) && !IsCleaning(st, s) && IsCleaning(ManagerStep(st, e), s)
    ensures HasUnfinishedWorker(ManagerStep(st, e).staff, s) <==> e == DeferredRuns(s) && st.staff.HasLiveWorker(s)
  {
    assert StaffConsistent(ManagerStep(st, e).staff) by {
      hide ManagerStep, StaffConsistent;
      ManagerKeepsCore(st, e);
      InvariantParts(st);
    }
    hide ManagerStep, Core, StaffConsistent, HasUnfinishedWorker;
    UnfinishedIsLive(ManagerStep(st, e).staff, s);
    match e
    case Clear(v) => ClearCleansAtRest(st, s, v);
    case WaitEnds(w, end, newWorker) => WaitCleansAtRest(st, s, w, end, newWorker);
    case Gathered => CloseCleansAtRest(st, s, e);
    case FinalizerRuns => CloseCleansAtRest(st, s, e);
    case DeferredRuns(v) => DeferredCleansAnyhow(st, s, v);
    case _ =>
      OthersCleanNobody(st, e, s);
      assert false;
  }

  lemma DeferredCleansAnyhow(st: State, s: SessionId, v: SessionId)
    requires !IsCleaning(st, s) && IsCleaning(ManagerStep(st, DeferredRuns(v)), s)
    requires StaffConsistent(st.staff)
    ensures v == s && (ManagerStep(st, DeferredRuns(v)).staff.HasLiveWorker(s) <==> st.staff.HasLiveWorker(s))
  {
  }

  lemma OthersCleanNobody(st: State, e: ManagerEvent, s: SessionId)
    requires !e.Clear? && !e.WaitEnds? && !e.Gathered? && !e.FinalizerRuns? && !e.DeferredRuns?
    requires !IsCleaning(st, s)
    ensures !IsCleaning(ManagerStep(st, e), s)
  {
  }

  // A run that gets there: a clear times out; before its deferred cleanup gets the lock, the
  // old worker finishes and the session accepts a new task.

  const TO_BUSY: seq<Event> := [
    TheManager(Initialize), TheManager(Submit(0, 0, 0, 0, false)),
    AWorker(0, Start), AWorker(0, WorkerEvent.Take(false)), AWorker(0, MakeAgent)]

  const BUSY := State(
    true, false, Free, None,
    Tasks(map[0 := 0], map[0 := Queue(0, [])], map[0 := Pending], map[0 := InHands(0)]),
    Staff(map[0 := 0], map[0 := Worker(0, Busy(0, 0), false)], {}, map[], {}, {}, map[]),
    Front(map[0 := 0], {0}, map[], map[]))

  const SUBMITTED := State(
    true, false, Free, None,
    Tasks(map[0 := 0], map[0 := Queue(0, [0])], map[0 := Pending], map[0 := InQueue(0)]),
    Staff(map[0 := 0], map[0 := Worker(0, Created, false)], {}, map[], {}, {}, map[]),
    Front(map[], {}, map[], map[]))

  lemma StepsToSubmitted()
    ensures Next(Next(INITIAL, TO_BUSY[0]), TO_BUSY[1]) == SUBMITTED
  {
    var s2 := Next(Next(INITIAL, TO_BUSY[0]), TO_BUSY[1]);
    var none: seq<TaskId> := [];
    assert none + [0] == [0];
    assert s2.tasks.queues == SUBMITTED.tasks.queues;
    assert s2.tasks == SUBMITTED.tasks;
    assert s2.staff == SUBMITTED.staff;
  }

  lemma StepsToBusy()
    ensures Next(Next(Next(SUBMITTED, TO_BUSY[2]), TO_BUSY[3]), TO_BUSY[4]) == BUSY
  {
    var s3 := Next(SUBMITTED, TO_BUSY[2]);
    assert s3.staff.workers == map[0 := Worker(0, Waiting(0), false)];
    var s4 := Next(s3, TO_BUSY[3]);
    var ts: seq<TaskId> := [0];
    assert ts[1..] == [];
    assert s4.tasks.queues == BUSY.tasks.queues;
    assert s4.tasks == BUSY.tasks && s4.staff == BUSY.staff;
  }

  lemma RunToBusy()
    ensures Run(INITIAL, TO_BUSY) == BUSY
  {
    hide Next;
    StepsToSubmitted();
    StepsToBusy();
    RunTwo(INITIAL, TO_BUSY, 0);
    RunTwo(SUBMITTED, TO_BUSY, 2);
    assert TO_BUSY[0..] == TO_BUSY && TO_BUSY[4..][1..] == [];
  }

  // A message accepted with the gate shut: the window is open, and a close gives up waiting for the worker.

  const TO_LATE: seq<Event> := [
    AWorker(0, OpenWindow), TheManager(Close), TheManager(IdleStopped), TheManager(WaitEnds(0, ShieldTimeout, 1)),
    TheManager(DiscardNext(0)), TheManager(Gathered), TheManager(CloseReturns)]

  const CLOSING := BUSY.(
    accepting := false, lock := ClosingIdle, front := BUSY.front.(inboxes := map[0 := Inbox(true, false, [])]))

  lemma StepsToClosing()
    ensures Next(Next(BUSY, TO_LATE[0]), TO_LATE[1]) == CLOSING
  {
    var st1 := Next(BUSY, TO_LATE[0]);
    assert st1 == CLOSING.(accepting := true, lock := Free);
    hide WorkerStep;
    assert Next(st1, TO_LATE[1]) == CLOSING;
  }

  const GIVEN_UP := CLOSING.(
    lock := ClosingWait({}, {0}),
    staff := Staff(map[0 := 0], map[0 := Worker(0, Busy(0, 0), true)], {0}, map[0 := 0], {}, {}, map[]))

  const WAITED_FOR := GIVEN_UP.(lock := ClosingWait({0}, {}), staff := GIVEN_UP.staff.(shutdownPending := map[]))

  lemma StepsToGivenUp()
    ensures Next(Next(CLOSING, TO_LATE[2]), TO_LATE[3]) == GIVEN_UP
  {
    hide Next;
    StepToWaitedFor();
    StepToGivenUp();
  }

  lemma StepToWaitedFor()
    ensures Next(CLOSING, TO_LATE[2]) == WAITED_FOR
  {
    assert CLOSING.staff.workerOf.Values == {0} by {
      assert CLOSING.staff.workerOf[0] == 0;
    }
    assert Next(CLOSING, TO_LATE[2]).staff.workers == GIVEN_UP.staff.workers;
  }

  lemma StepToGivenUp()
    ensures Next(WAITED_FOR, TO_LATE[3]) == GIVEN_UP
  {
    assert {0} - {0} == {} && {} + {0} == {0};
  }

  const LATE := GIVEN_UP.(tasks := BUSY.tasks.(queueOf := map[]), lock := ClosingAgents({}, {0}))

  lemma StepsToLate()
    ensures Next(Next(GIVEN_UP, TO_LATE[4]), TO_LATE[5]) == LATE
  {
    hide Next;
    StepToDiscarded();
    StepToLate();
  }

  lemma StepToDiscarded()
    ensures Next(GIVEN_UP, TO_LATE[4]) == LATE.(lock := GIVEN_UP.lock)
  {
    assert Next(GIVEN_UP, TO_LATE[4]).tasks == LATE.tasks;
  }

  lemma StepToLate()
    ensures Next(LATE.(lock := GIVEN_UP.lock), TO_LATE[5]) == LATE
  {
    assert SessionsOf(LATE.staff, {0}) == {0};
    var st := Next(LATE.(lock := GIVEN_UP.lock), TO_LATE[5]);
    assert st.staff.workerOf == LATE.staff.workerOf && LATE.front.agents - {0} == {};
  }

  const CLOSED_LATE := LATE.(lock := Free, finalizer := Some({0}))

  lemma StepsToSteered()
    ensures Next(LATE, TO_LATE[6]) == CLOSED_LATE
    ensures CanSteer(CLOSED_LATE, 0, 1, true) && 1 !in Accepted(CLOSED_LATE)
  {
  }

  lemma RunToClosedLate()
    ensures Run(BUSY, TO_LATE) == CLOSED_LATE
  {
    hide Next, Accepted;
    StepsToClosing();
    StepsToGivenUp();
    StepsToLate();
    StepsToSteered();
    RunTwo(BUSY, TO_LATE, 0);
    RunTwo(CLOSING, TO_LATE, 2);
    RunTwo(GIVEN_UP, TO_LATE, 4);
    assert TO_LATE[0..] == TO_LATE && TO_LATE[6..] == [TO_LATE[6]] && TO_LATE[6..][1..] == [];
  }

  /**
    A direct message can be accepted although the gate is shut: a close whose wait for a worker
    timed out has returned, and the worker's window is open.
   */
  lemma ShutGateCanAccept()
    ensures
      var st := Run(INITIAL, TO_BUSY + TO_LATE);
      && !st.accepting && st.lock == Free && 1 !in Accepted(st)
      && 1 in Accepted(Next(st, AtInbox(SteerDirectly(0, 1, true))))
  {
    hide Next, Run, Accepted;
    RunToBusy();
    RunToClosedLate();
    RunAppend(INITIAL, TO_BUSY, TO_LATE);
    StepsToSteered();
    SteeringAccepts(CLOSED_LATE, 0, 1);
  }

  lemma SteeringAccepts(st: State, s: SessionId, t: TaskId)
    requires CanSteer(st, s, t, true)
    ensures t in Accepted(Next(st, AtInbox(SteerDirectly(s, t, true))))
  {
  }

  // A reopened manager with a shut inbox: a close finds one agent, whose session had a run before.

  const TO_LAST_AGENT: seq<Event> := [
    AWorker(0, OpenWindow), AWorker(0, CloseWindow(0)), AWorker(0, EndTask(Returned)), AWorker(0, LeaveTask(false)),
    TheManager(Close), TheManager(IdleStopped), AWorker(0, CancelWaiting), TheManager(WaitEnds(0, ShieldReturned, 1)),
    TheManager(Gathered)]

  const TO_REOPENED: seq<Event> := [
    AtInbox(CleanupCloses(0)), TheManager(AgentCleaned(0, true)), TheManager(CloseReturns), TheManager(Initialize)]

  const RAN := BUSY.(front := BUSY.front.(inboxes := map[0 := Inbox(false, false, [])]))

  lemma StepsToRan()
    ensures Next(Next(BUSY, TO_LAST_AGENT[0]), TO_LAST_AGENT[1]) == RAN
  {
  }

  const RESTING := RAN.(
    tasks := Tasks(map[0 := 0], map[0 := Queue(0, [])], map[0 := Delivered], map[0 := Gone]),
    staff := BUSY.staff.(workers := map[0 := Worker(0, Waiting(0), false)]),
    front := RAN.front.(activeTasks := map[]))

  lemma StepsToResting()
    ensures Next(Next(RAN, TO_LAST_AGENT[2]), TO_LAST_AGENT[3]) == RESTING
  {
    var st := Next(RAN, TO_LAST_AGENT[2]);
    assert st == RAN.(
      tasks := RAN.tasks.(futures := map[0 := Delivered]),
      staff := RAN.staff.(workers := map[0 := Worker(0, Leaving(0, 0, false), false)]));
    assert Next(st, TO_LAST_AGENT[3]).tasks == RESTING.tasks;
  }

  const ASKED := RESTING.(
    accepting := false, lock := ClosingWait({0}, {}),
    staff := RESTING.staff.(workers := map[0 := Worker(0, Waiting(0), true)], cancelRequested := {0}))

  lemma StepsToAsked()
    ensures Next(Next(RESTING, TO_LAST_AGENT[4]), TO_LAST_AGENT[5]) == ASKED
  {
    assert Next(RESTING, TO_LAST_AGENT[4]) == RESTING.(accepting := false, lock := ClosingIdle);
    assert RESTING.staff.workerOf.Values == {0} by {
      assert RESTING.staff.workerOf[0] == 0;
    }
    assert RESTING.staff.Cancel({0}).workers == ASKED.staff.workers;
  }

  const LEFT := ASKED.(
    lock := ClosingWait({}, {}),
    tasks := ASKED.tasks.(queueOf := map[]),
    staff := Staff(map[], map[0 := Worker(0, Done(false), true)], {}, map[], {}, {}, map[]))

  lemma StepsToLeft()
    ensures Next(Next(ASKED, TO_LAST_AGENT[6]), TO_LAST_AGENT[7]) == LEFT
  {
    StepToCancelled();
    hide WorkerStep;
    assert {0} - {0} == {};
  }

  lemma StepToCancelled()
    ensures Next(ASKED, TO_LAST_AGENT[6]) == LEFT.(lock := ASKED.lock)
  {
    var st := Next(ASKED, TO_LAST_AGENT[6]);
    assert st.tasks == LEFT.tasks && st.staff == LEFT.staff;
  }

  const LAST_AGENT := LEFT.(lock := ClosingAgents({0}, {}))

  lemma StepToLastAgent()
    ensures Next(LEFT, TO_LAST_AGENT[8]) == LAST_AGENT
  {
    var st := Next(LEFT, TO_LAST_AGENT[8]);
    assert SessionsOf(LEFT.staff, {}) == {} && {0} - {} == {0};
    assert st.staff.workerOf == map[];
  }

  lemma RunToLastAgent()
    ensures Run(BUSY, TO_LAST_AGENT) == LAST_AGENT
  {
    hide Next;
    StepsToRan();
    StepsToResting();
    StepsToAsked();
    StepsToLeft();
    StepToLastAgent();
    RunTwo(BUSY, TO_LAST_AGENT, 0);
    RunTwo(RAN, TO_LAST_AGENT, 2);
    RunTwo(RESTING, TO_LAST_AGENT, 4);
    RunTwo(ASKED, TO_LAST_AGENT, 6);
    assert TO_LAST_AGENT[0..] == TO_LAST_AGENT;
    assert TO_LAST_AGENT[8..] == [TO_LAST_AGENT[8]] && TO_LAST_AGENT[8..][1..] == [];
  }

  /** From the initial state: a close returns True, the manager is initialised again, and the inbox is shut. */
  lemma ReopeningKeepsAShutInbox()
    ensures
      var before, more := TO_BUSY + TO_LAST_AGENT, TO_REOPENED;
      && Run(Run(INITIAL, before), more[..3]).closed
      && Run(INITIAL, before + more).accepting && Run(INITIAL, before + more).front.agents == {}
      && Run(INITIAL, before + more).front.IsShut(0)
  {
    hide Next, Run;
    RunToBusy();
    RunToLastAgent();
    RunAppend(INITIAL, TO_BUSY, TO_LAST_AGENT);
    RunAppend(INITIAL, TO_BUSY + TO_LAST_AGENT, TO_REOPENED);
    ReopenedWithShutInbox(LAST_AGENT, 0);
  }

  const TO_CLEARED: seq<Event> := [TheManager(Clear(0)), TheManager(WaitEnds(0, ShieldTimeout, 1))]

  const CLEARED := BUSY.(
    tasks := BUSY.tasks.(queueOf := map[]),
    staff := Staff(map[0 := 0], map[0 := Worker(0, Busy(0, 0), true)], {0}, map[0 := 0], {0}, {(0, 0)}, map[]))

  lemma RunToCleared()
    ensures Run(BUSY, TO_CLEARED) == CLEARED
  {
    hide Next;
    StepsToCleared();
    RunTwo(BUSY, TO_CLEARED, 0);
    assert TO_CLEARED[0..] == TO_CLEARED && TO_CLEARED[2..] == [];
  }

  const CLEARING := BUSY.(
    lock := Clearing(0, 0),
    staff := Staff(map[0 := 0], map[0 := Worker(0, Busy(0, 0), true)], {0}, map[], {0}, {}, map[]))

  lemma StepsToCleared()
    ensures Next(Next(BUSY, TO_CLEARED[0]), TO_CLEARED[1]) == CLEARED
  {
    hide Next;
    StepToClearing();
    StepToCleared();
  }

  lemma StepToClearing()
    ensures Next(BUSY, TO_CLEARED[0]) == CLEARING
  {
    assert BUSY.staff.Cancel({0}).workers == CLEARING.staff.workers;
  }

  lemma StepToCleared()
    ensures Next(CLEARING, TO_CLEARED[1]) == CLEARED
  {
    assert CLEARING.tasks.Discard(0) == CLEARED.tasks;
  }

  const TO_CLEANING: seq<Event> := [
    AWorker(0, EndTask(Returned)), AWorker(0, LeaveTask(true)), TheManager(DeferredCallback(0, 0)),
    TheManager(Submit(0, 1, 1, 1, false)), TheManager(DeferredRuns(0))]

  const FINISHED := CLEARED.(
    tasks := Tasks(map[], map[0 := Queue(0, [])], map[0 := Cancelled], map[0 := Gone]),
    staff := Staff(map[], map[0 := Worker(0, Done(false), true)], {}, map[0 := 0], {0}, {(0, 0)}, map[]),
    front := Front(map[], {0}, map[], map[]))

  lemma StepsToFinished()
    ensures Next(Next(CLEARED, TO_CLEANING[0]), TO_CLEANING[1]) == FINISHED
  {
    var s1 := Next(CLEARED, TO_CLEANING[0]);
    assert s1.tasks.futures == map[0 := Cancelled];
    assert s1.staff.workers == map[0 := Worker(0, Leaving(0, 0, false), true)];
    var s2 := Next(s1, TO_CLEANING[1]);
    assert s2.tasks == FINISHED.tasks;
    assert s2.staff == FINISHED.staff;
    assert s2.front == FINISHED.front;
  }

  const DEFERRED := FINISHED.(staff := FINISHED.staff.(deferredCallbacks := {}, deferredCleanups := map[0 := 0]))

  lemma StepToDeferred()
    ensures Next(FINISHED, TO_CLEANING[2]) == DEFERRED
  {
    assert Next(FINISHED, TO_CLEANING[2]).staff == DEFERRED.staff;
  }

  lemma StepsToCleaning()
    ensures
      var s4 := Next(DEFERRED, TO_CLEANING[3]);
      Next(s4, TO_CLEANING[4]).lock == CleaningAgent(0) && Next(s4, TO_CLEANING[4]).staff.HasLiveWorker(0)
  {
    hide Next;
    StepToResubmitted();
    StepToCleaning(Next(DEFERRED, TO_CLEANING[3]));
  }

  predicate IsResubmitted(st: State) {
    && st.lock == Free && st.front == FINISHED.front && st.staff.workerOf == map[0 := 1]
    && 1 in st.staff.workers && st.staff.workers[1].phase == Created
    && st.staff.Finished(0) && st.staff.deferredCleanups == map[0 := 0]
  }

  lemma StepToResubmitted()
    ensures IsResubmitted(Next(DEFERRED, TO_CLEANING[3]))
  {
  }

  lemma StepToCleaning(st: State)
    requires IsResubmitted(st)
    ensures Next(st, TO_CLEANING[4]).lock == CleaningAgent(0) && Next(st, TO_CLEANING[4]).staff.HasLiveWorker(0)
  {
  }

  lemma RunToCleaning()
    ensures Run(CLEARED, TO_CLEANING).lock == CleaningAgent(0)
    ensures Run(CLEARED, TO_CLEANING).staff.HasLiveWorker(0)
  {
    hide Next;
    StepsToFinished();
    StepToDeferred();
    StepsToCleaning();
    RunTwo(CLEARED, TO_CLEANING, 0);
    RunTwo(FINISHED, TO_CLEANING, 2);
    assert TO_CLEANING[0..] == TO_CLEANING && TO_CLEANING[4..][1..] == [];
  }

  /** The exception is reachable. */
  lemma CleanupCanMeetAWorker()
    ensures
      var st := Run(INITIAL, TO_BUSY + TO_CLEARED + TO_CLEANING);
      st.lock == CleaningAgent(0) && HasUnfinishedWorker(st.staff, 0)
  {
    hide Next;
    RunToBusy();
    RunToCleared();
    RunToCleaning();
    RunAppend(INITIAL, TO_BUSY, TO_CLEARED);
    RunAppend(INITIAL, TO_BUSY + TO_CLEARED, TO_CLEANING);
    var st := Run(INITIAL, TO_BUSY + TO_CLEARED + TO_CLEANING);
    ReachableIsConsistent(TO_BUSY + TO_CLEARED + TO_CLEANING);
    InvariantParts(st);
    UnfinishedIsLive(st.staff, 0);
  }

  lemma RunTwo(st: State, events: seq<Event>, i: nat)
    requires i + 2 <= |events|
    ensures Run(st, events[i..]) == Run(Next(Next(st, events[i]), events[i + 1]), events[i + 2..])
  {
    assert events[i..][1..] == events[i + 1..];
    assert events[i + 1..][1..] == events[i + 2..];
  }

  lemma {:induction false} RunAppend(st: State, first: seq<Event>, second: seq<Event>)
    ensures Run(st, first + second) == Run(Run(st, first), second)
    decreases |first|
  {
    if first == [] {
      assert first + second == second;
    } else {
      assert (first + second)[1..] == first[1..] + second;
      RunAppend(Next(st, first[0]), first[1..], second);
    }
  }
}
