/**
  The tasks of the session manager: bounded session queues, the hands of the workers, and the
  completion futures (`AgentSessionOwner`). Each function is the effect on them of one piece
  of code between two awaits.
 */
module SessionTasks {

  type SessionId = nat
  type TaskId = nat
  type WorkerId = nat    // the identity of an `asyncio.Task` that runs `_session_worker`
  type QueueId = nat     // the identity of an `asyncio.Queue`

  const AGENT_SESSION_QUEUE_MAX_SIZE := 8

  datatype Future = Pending | Delivered | Cancelled | Failed

  /** Where an accepted task is. `Gone` means that no queue and no worker refers to it any more. */
  datatype Place = InQueue(queue: QueueId) | InHands(worker: WorkerId) | Gone

  /** An `asyncio.Queue`, and the session it was made for */
  datatype Queue = Queue(session: SessionId, tasks: seq<TaskId>)

  datatype Tasks = Tasks(
    queueOf: map<SessionId, QueueId>,    // `_session_queues`
    queues: map<QueueId, Queue>,         // the queue objects, mapped or not
    futures: map<TaskId, Future>,
    places: map<TaskId, Place>)
  {
    predicate IsMapped(q: QueueId) {
      q in queues && queues[q].session in queueOf && queueOf[queues[q].session] == q
    }

    predicate HasQueue(s: SessionId) {
      s in queueOf && queueOf[s] in queues
    }

    function Queued(s: SessionId): seq<TaskId> {
      if HasQueue(s) then queues[queueOf[s]].tasks else []
    }

    predicate IsSettled(t: TaskId) {
      t in futures && futures[t] != Pending
    }

    /** Creates the session's queue if it has none; `newQueue` is the identity of a new one. */
    function EnsureQueue(s: SessionId, newQueue: QueueId): Tasks {
      if s in queueOf then this
      else this.(queueOf := queueOf[s := newQueue], queues := queues[newQueue := Queue(s, [])])
    }

    /** `queue.put_nowait(task)` */
    function Put(s: SessionId, t: TaskId): Tasks
      requires HasQueue(s)
    {
      var q := queueOf[s];
      this.(queues := queues[q := queues[q].(tasks := queues[q].tasks + [t])],
            futures := futures[t := Pending], places := places[t := InQueue(q)])
    }

    /** The first task leaves the queue for the hands of a worker. */
    function Take(q: QueueId, w: WorkerId): Tasks
      requires q in queues && queues[q].tasks != []
    {
      this.(queues := queues[q := queues[q].(tasks := queues[q].tasks[1..])],
            places := places[queues[q].tasks[0] := InHands(w)])
    }

    /** Completes the future unless it is done already. */
    function Settle(t: TaskId, outcome: Future): Tasks {
      if t in futures && futures[t] == Pending then this.(futures := futures[t := outcome]) else this
    }

    /** The worker is through with a task. */
    function Release(t: TaskId): Tasks {
      this.(places := places[t := Gone])
    }

    /** `_discard_queued_messages`: completes the futures of the queued tasks and empties the queue. */
    function Drain(q: QueueId, outcome: Future): Tasks
      requires q in queues
    {
      var ts := queues[q].tasks;
      this.(queues := queues[q := queues[q].(tasks := [])],
            futures := map t | t in futures :: if t in ts && futures[t] == Pending then outcome else futures[t],
            places := map t | t in places :: if t in ts then Gone else places[t])
    }

    /** The session's queue is popped from the manager, then drained. */
    function Discard(s: SessionId): Tasks {
      if HasQueue(s) then Drain(queueOf[s], Cancelled).(queueOf := queueOf - {s}) else this
    }

    /** A finishing worker removes its queue if it is still the session's and empty. */
    function DropIfEmpty(s: SessionId, q: QueueId): Tasks {
      if HasQueue(s) && queueOf[s] == q && queues[q].tasks == [] then this.(queueOf := queueOf - {s}) else this
    }
  }

  ghost predicate NoDuplicates(ts: seq<TaskId>) {
    forall i, j :: 0 <= i < j < |ts| ==> ts[i] != ts[j]
  }

  /** A mapped queue is its session's, and only a mapped queue holds tasks. */
  ghost predicate QueuesConsistent(x: Tasks) {
    && (forall s :: s in x.queueOf ==> x.queueOf[s] in x.queues && x.queues[x.queueOf[s]].session == s)
    && (forall q :: q in x.queues && x.queues[q].tasks != [] ==> x.IsMapped(q))
  }

  ghost predicate QueuesBounded(x: Tasks) {
    forall q :: q in x.queues ==>
      |x.queues[q].tasks| <= AGENT_SESSION_QUEUE_MAX_SIZE && NoDuplicates(x.queues[q].tasks)
  }

  /** A task is listed exactly by the queue it is said to be in; a task that is gone is settled. */
  ghost predicate PlacesConsistent(x: Tasks) {
    && (forall q, t :: q in x.queues && t in x.queues[q].tasks ==> t in x.places && x.places[t] == InQueue(q))
    && (forall t :: t in x.places && x.places[t].InQueue? ==>
          x.places[t].queue in x.queues && t in x.queues[x.places[t].queue].tasks)
    && (forall t :: t in x.places ==> t in x.futures)
    && (forall t :: t in x.places && x.places[t] == Gone ==> x.IsSettled(t))
  }

  ghost predicate Consistent(x: Tasks) {
    QueuesConsistent(x) && QueuesBounded(x) && PlacesConsistent(x)
  }

  // ----- every effect keeps the tasks consistent

  lemma EnsureQueueKeeps(x: Tasks, s: SessionId, newQueue: QueueId)
    requires Consistent(x) && newQueue !in x.queues
    ensures Consistent(x.EnsureQueue(s, newQueue)) && x.EnsureQueue(s, newQueue).HasQueue(s)
  {
  }

  lemma PutKeeps(x: Tasks, s: SessionId, t: TaskId)
    requires Consistent(x) && x.HasQueue(s) && |x.Queued(s)| < AGENT_SESSION_QUEUE_MAX_SIZE && t !in x.places
    ensures Consistent(x.Put(s, t))
  {
    hide PlacesConsistent;
    PutKeepsPlaces(x, s, t);
    assert t !in x.Queued(s) by {
      NotQueued(x, x.queueOf[s], t);
    }
  }

  lemma NotQueued(x: Tasks, q: QueueId, t: TaskId)
    requires PlacesConsistent(x) && q in x.queues && (t in x.places ==> x.places[t] != InQueue(q))
    ensures t !in x.queues[q].tasks
  {
  }

  lemma PutKeepsPlaces(x: Tasks, s: SessionId, t: TaskId)
    requires PlacesConsistent(x) && x.HasQueue(s) && t !in x.places
    ensures PlacesConsistent(x.Put(s, t))
  {
    var y, q := x.Put(s, t), x.queueOf[s];
    forall p, u | p in y.queues && u in y.queues[p].tasks ensures u in y.places && y.places[u] == InQueue(p) {
      assert u == t || u in x.queues[p].tasks;
      NotQueued(x, p, t);
    }
    forall u | u in y.places && y.places[u].InQueue?
      ensures y.places[u].queue in y.queues && u in y.queues[y.places[u].queue].tasks
    {
      if u != t {
        assert u in x.queues[x.places[u].queue].tasks;
      }
    }
  }

  lemma TakeKeeps(x: Tasks, q: QueueId, w: WorkerId)
    requires Consistent(x) && q in x.queues && x.queues[q].tasks != []
    ensures Consistent(x.Take(q, w))
  {
    hide PlacesConsistent;
    TakeKeepsPlaces(x, q, w);
  }

  lemma TakeKeepsPlaces(x: Tasks, q: QueueId, w: WorkerId)
    requires PlacesConsistent(x) && q in x.queues && x.queues[q].tasks != [] && NoDuplicates(x.queues[q].tasks)
    ensures PlacesConsistent(x.Take(q, w))
  {
    var y, t := x.Take(q, w), x.queues[q].tasks[0];
    assert x.queues[q].tasks == [t] + y.queues[q].tasks;
    assert t in x.queues[q].tasks && t !in y.queues[q].tasks;
    forall p, u | p in y.queues && u in y.queues[p].tasks ensures u in y.places && y.places[u] == InQueue(p) {
      assert u in x.queues[p].tasks && x.places[u] == InQueue(p) && x.places[t] == InQueue(q);
    }
    forall u | u in y.places && y.places[u].InQueue?
      ensures y.places[u].queue in y.queues && u in y.queues[y.places[u].queue].tasks
    {
      assert u != t && u in x.queues[x.places[u].queue].tasks;
    }
  }

  lemma SettleKeeps(x: Tasks, t: TaskId, outcome: Future)
    requires Consistent(x) && outcome != Pending
    ensures Consistent(x.Settle(t, outcome))
  {
  }

  lemma ReleaseKeeps(x: Tasks, t: TaskId)
    requires Consistent(x) && t in x.places && x.places[t].InHands? && x.IsSettled(t)
    ensures Consistent(x.Release(t))
  {
  }

  lemma DrainKeeps(x: Tasks, q: QueueId, outcome: Future)
    requires Consistent(x) && q in x.queues && outcome != Pending
    ensures Consistent(x.Drain(q, outcome)) && x.Drain(q, outcome).queues[q].tasks == []
  {
    hide PlacesConsistent;
    DrainKeepsPlaces(x, q, outcome);
  }

  lemma DrainKeepsPlaces(x: Tasks, q: QueueId, outcome: Future)
    requires PlacesConsistent(x) && q in x.queues && outcome != Pending
    ensures PlacesConsistent(x.Drain(q, outcome))
  {
    var y := x.Drain(q, outcome);
    forall p, u | p in y.queues && u in y.queues[p].tasks ensures u in y.places && y.places[u] == InQueue(p) {
      assert p != q && u in x.queues[p].tasks;
      assert x.places[u] == InQueue(p);
      NotQueued(x, q, u);
    }
    forall u | u in y.places && y.places[u].InQueue?
      ensures y.places[u].queue in y.queues && u in y.queues[y.places[u].queue].tasks
    {
      assert u in x.queues[x.places[u].queue].tasks && u !in x.queues[q].tasks;
    }
  }

  lemma DiscardKeeps(x: Tasks, s: SessionId)
    requires Consistent(x)
    ensures Consistent(x.Discard(s)) && s !in x.Discard(s).queueOf
  {
    hide PlacesConsistent, QueuesBounded;
    if x.HasQueue(s) {
      DrainKeeps(x, x.queueOf[s], Cancelled);
      UnmapKeeps(x.Drain(x.queueOf[s], Cancelled), s);
    }
  }

  /** Unmapping an empty queue changes nothing else. */
  lemma UnmapKeeps(x: Tasks, s: SessionId)
    requires Consistent(x) && x.HasQueue(s) && x.Queued(s) == []
    ensures Consistent(x.(queueOf := x.queueOf - {s}))
  {
  }

  lemma DropIfEmptyKeeps(x: Tasks, s: SessionId, q: QueueId)
    requires Consistent(x)
    ensures Consistent(x.DropIfEmpty(s, q))
  {
    hide Consistent;
    if x.DropIfEmpty(s, q) != x {
      UnmapKeeps(x, s);
    }
  }
}
