/**
  Messages that arrive while an agent is running: the inbox of one session
  (`SteeringInbox`) and the worker's loop that empties it (`_process_message_internal`).

  Every inbox operation runs under the inbox lock and never awaits inside it, so it is atomic.
 */
module Steering {
  import opened Wrappers

  const STEERING_QUEUE_MAX_SIZE := 8

  /** An accepted message; `number` stands for its generated id and grows with each acceptance. */
  datatype Message = Message(number: nat, text: string)

  predicate Increasing(ms: seq<Message>) {
    forall i, j :: 0 <= i < j < |ms| ==> ms[i].number < ms[j].number
  }

  /**
    The inbox, with the history of the current or last run window: the messages accepted in it,
    those notified as "applied", those the agent graph took, and those that `close` handed out,
    which its caller drops.
   */
  datatype Window = Window(
    userId: string, pending: seq<Message>, running: bool, closed: bool, nextNumber: nat,
    accepted: seq<Message>, applied: seq<Message>, injected: seq<Message>, dropped: seq<Message>)
  {
    predicate Accepts(user: string) {
      running && !closed && user == userId && |pending| < STEERING_QUEUE_MAX_SIZE
    }

    function Begin(): Window {
      this.(running := running || !closed, accepted := pending, applied := [], injected := [], dropped := [])
    }

    function Finish(): Window {
      this.(running := false, pending := [])
    }

    function Enqueue(user: string, text: string): Window {
      if !Accepts(user) then this
      else
        var m := [Message(nextNumber, text)];
        this.(nextNumber := nextNumber + 1, pending := pending + m, accepted := accepted + m)
    }

    /** Everything pending is taken and notified. */
    function Take(): Window {
      this.(pending := [], applied := applied + pending)
    }

    function Inject(): Window {
      Take().(injected := injected + pending)
    }

    function Shut(): Window {
      this.(closed := true, running := false, pending := [], dropped := dropped + pending)
    }

    /** The worker notifies a message that it was handed when the window was closed. */
    function Apply(m: Message): Window {
      this.(applied := applied + [m])
    }

    ghost predicate Valid() {
      && |pending| <= STEERING_QUEUE_MAX_SIZE
      && (!running || closed ==> pending == []) && (dropped != [] ==> closed && !running)
      && Increasing(accepted) && (forall m :: m in accepted ==> m.number < nextNumber)
      && Increasing(injected) && (forall m :: m in injected ==> m in applied)
      && applied <= accepted
    }

    /** Everything accepted is applied, pending, among `rest`, or dropped, in this order. */
    ghost predicate Complete(rest: seq<Message>) {
      accepted == applied + pending + rest + dropped
    }
  }

  /** What other tasks and the agent graph do to the inbox while the worker waits */
  datatype InboxEvent =
    | Submit(userId: string, text: string)
    | Inject                               // the asynchronous model call takes the messages
    | InjectNowait(lockHeld: bool)         // the synchronous one gives up if the lock is held
    | Shut                                 // a cleanup of the agent closes the inbox

  function After(w: Window, event: InboxEvent): Window {
    match event
    case Submit(user, text) => w.Enqueue(user, text)
    case Inject => w.Inject()
    case InjectNowait(lockHeld) => if lockHeld then w else w.Inject()
    case Shut => w.Shut()
  }

  function AfterAll(w: Window, events: seq<InboxEvent>): Window
    decreases |events|
  {
    if events == [] then w else AfterAll(After(w, events[0]), events[1..])
  }

  // ----- the inbox

  class SteeringInbox {
    const userId: string
    var pending: seq<Message>
    var running: bool
    var closed: bool
    var nextNumber: nat

    ghost var accepted: seq<Message>
    ghost var applied: seq<Message>
    ghost var injected: seq<Message>
    ghost var dropped: seq<Message>

    ghost function Snapshot(): Window
      reads this
    {
      Window(userId, pending, running, closed, nextNumber, accepted, applied, injected, dropped)
    }

    constructor (userId: string)
      ensures Snapshot() == Window(userId, [], false, false, 0, [], [], [], []) && Snapshot().Valid()
    {
      this.userId := userId;
      pending, running, closed, nextNumber := [], false, false, 0;
      accepted, applied, injected, dropped := [], [], [], [];
    }

    /** Opens a run window unless the inbox is closed. */
    method BeginRun()
      modifies this
      ensures running == (old(running) || !old(closed)) && closed == old(closed)
      ensures pending == old(pending) == accepted && applied == injected == dropped == []
      ensures Snapshot() == old(Snapshot()).Begin()
    {
      accepted, applied, injected, dropped := pending, [], [], [];
      if closed {
        return;
      }
      running := true;
    }

    /** Closes the run window and hands out what was not taken; these messages are not notified here. */
    method FinishRun() returns (messages: seq<Message>)
      modifies this`running, this`pending
      ensures !running && pending == [] && messages == old(pending)
      ensures Snapshot() == old(Snapshot()).Finish()
    {
      running := false;
      messages := pending;
      pending := [];
    }

    /** Accepts a message, or None when the caller has to fall back to an ordinary turn. */
    method Enqueue(user: string, text: string) returns (message: Option<Message>)
      modifies this`pending, this`nextNumber, this`accepted
      ensures message.Some? <==> running && !closed && user == userId && |old(pending)| < STEERING_QUEUE_MAX_SIZE
      ensures message.Some? ==> message.value.text == text && pending == old(pending) + [message.value]
      ensures Snapshot() == old(Snapshot()).Enqueue(user, text)
    {
      if closed || !running || user != userId {
        return None;
      }
      if |pending| >= STEERING_QUEUE_MAX_SIZE {
        return None;
      }
      var m := Message(nextNumber, text);
      nextNumber := nextNumber + 1;
      pending := pending + [m];
      accepted := accepted + [m];
      return Some(m);
    }

    /** Takes all pending messages and notifies each as "applied", in order. */
    method Consume() returns (messages: seq<Message>)
      modifies this`pending, this`applied
      ensures pending == [] && messages == old(pending) && applied == old(applied) + messages
      ensures Snapshot() == old(Snapshot()).Take()
    {
      messages := pending;
      pending := [];
      applied := applied + messages;
    }

    /** Like `Consume`, but takes nothing while the lock is held. */
    method ConsumeNowait(lockHeld: bool) returns (messages: seq<Message>)
      modifies this`pending, this`applied
      ensures Snapshot() == (if lockHeld then old(Snapshot()) else old(Snapshot()).Take())
      ensures messages == if lockHeld then [] else old(pending)
    {
      messages := [];
      assert pending == [] ==> applied + pending == applied;
      if !lockHeld && pending != [] {
        messages := pending;
        pending := [];
        applied := applied + messages;
      }
    }

    /** Closes the inbox for good. */
    method Close() returns (messages: seq<Message>)
      modifies this`closed, this`running, this`pending, this`dropped
      ensures closed && !running && pending == [] && messages == old(pending)
      ensures dropped == old(dropped) + messages && nextNumber == old(nextNumber)
      ensures Snapshot() == old(Snapshot()).Shut()
    {
      closed, running := true, false;
      messages := pending;
      pending := [];
      dropped := dropped + messages;
    }

    method Occurs(event: InboxEvent)
      modifies this
      ensures Snapshot() == After(old(Snapshot()), event)
    {
      match event
      case Submit(user, text) =>
        var _ := Enqueue(user, text);
      case Inject =>
        var messages := Consume();
        injected := injected + messages;
      case InjectNowait(lockHeld) =>
        var messages := ConsumeNowait(lockHeld);
        assert injected + [] == injected;
        injected := injected + messages;
      case Shut =>
        var _ := Close();
    }

    method Meanwhile(events: seq<InboxEvent>)
      modifies this
      ensures Snapshot() == AfterAll(old(Snapshot()), events)
    {
      assert events[0..] == events;
      for i := 0 to |events|
        invariant AfterAll(Snapshot(), events[i..]) == AfterAll(old(Snapshot()), events)
      {
        Occurs(events[i]);
        assert events[i..][1..] == events[i + 1..];
      }
    }
  }

  // ----- what every event keeps

  lemma AfterKeeps(w: Window, event: InboxEvent, rest: seq<Message>)
    requires w.Valid() && w.Complete(rest) && (w.running ==> rest == [] && w.dropped == [])
    ensures
      var v := After(w, event);
      && v.Valid() && v.Complete(rest) && (v.running ==> w.running) && (v.running ==> v.dropped == [])
      && (!w.running ==> v.pending == w.pending && v.applied == w.applied && v.dropped == w.dropped)
      && w.applied <= v.applied && v.injected == w.injected + v.applied[|w.applied|..]
  {
    hide Increasing, Window.Valid, Window.Complete;
    assert !w.running ==> w.pending == [] by {
      PendingNeedsWindow(w);
    }
    assert w.applied[|w.applied|..] == [] && w.injected + [] == w.injected;
    match event
    case Submit(user, text) => EnqueueKeeps(w, user, text, rest);
    case Inject => InjectKeeps(w, rest);
    case InjectNowait(lockHeld) => InjectKeeps(w, rest);
    case Shut => ShutKeeps(w, rest);
  }

  lemma PendingNeedsWindow(w: Window)
    requires w.Valid()
    ensures w.pending != [] ==> w.running && !w.closed
  {
  }

  lemma EnqueueKeeps(w: Window, user: string, text: string, rest: seq<Message>)
    requires w.Valid() && w.Complete(rest) && (w.running ==> rest == [] && w.dropped == [])
    ensures w.Enqueue(user, text).Valid() && w.Enqueue(user, text).Complete(rest)
  {
    if w.Accepts(user) {
      var v := w.Enqueue(user, text);
      assert v.accepted == w.accepted + [Message(w.nextNumber, text)];
      assert w.applied <= v.accepted;
    }
  }

  lemma ShutKeeps(w: Window, rest: seq<Message>)
    requires w.Valid() && w.Complete(rest) && (w.running ==> rest == [] && w.dropped == [])
    ensures w.Shut().Valid() && w.Shut().Complete(rest)
    ensures !w.running ==> w.Shut().dropped == w.dropped
  {
  }

  lemma InjectKeeps(w: Window, rest: seq<Message>)
    requires w.Valid() && w.Complete(rest)
    ensures w.Inject().Valid() && w.Inject().Complete(rest)
    ensures w.pending == [] ==> w.Inject() == w
  {
    IncreasingPrefix(w.applied + w.pending, w.accepted);
    TakenInOrder(w.injected, w.applied, w.pending);
  }

  lemma {:induction false} AfterAllKeeps(w: Window, events: seq<InboxEvent>, rest: seq<Message>)
    requires w.Valid() && w.Complete(rest) && (w.running ==> rest == [] && w.dropped == [])
    ensures
      var v := AfterAll(w, events);
      && v.Valid() && v.Complete(rest) && (v.running ==> w.running) && (v.running ==> v.dropped == [])
      && (!w.running ==> v.pending == w.pending && v.applied == w.applied && v.dropped == w.dropped)
      && w.applied <= v.applied && v.injected == w.injected + v.applied[|w.applied|..]
    decreases |events|
  {
    hide After, Window.Valid, Window.Complete;
    if events == [] {
      assert w.applied[|w.applied|..] == [];
    } else {
      var u, v := After(w, events[0]), AfterAll(w, events);
      AfterKeeps(w, events[0], rest);
      AfterAllKeeps(u, events[1..], rest);
      assert v.applied[|w.applied|..] == u.applied[|w.applied|..] + v.applied[|u.applied|..];
    }
  }

  // ----- a closed inbox

  /** Whatever may be done to an inbox, by a worker or by others */
  datatype Access = Begins | Finishes | Takes | Occurs(event: InboxEvent)

  function Accessed(w: Window, access: Access): Window {
    match access
    case Begins => w.Begin()
    case Finishes => w.Finish()
    case Takes => w.Take()
    case Occurs(event) => After(w, event)
  }

  function AccessedAll(w: Window, accesses: seq<Access>): Window
    decreases |accesses|
  {
    if accesses == [] then w else AccessedAll(Accessed(w, accesses[0]), accesses[1..])
  }

  /** Closed, without a window, and empty */
  predicate IsShut(w: Window) {
    w.closed && !w.running && w.pending == []
  }

  /**
    After a close nothing opens a window and nothing is accepted, whatever is done to the inbox:
    it stays shut and no message gets a number any more.
   */
  lemma {:induction false} ClosedForGood(w: Window, accesses: seq<Access>)
    ensures
      var v := AccessedAll(w.Shut(), accesses);
      IsShut(v) && v.nextNumber == w.nextNumber && forall user :: !v.Accepts(user)
  {
    StaysShut(w.Shut(), accesses);
  }

  lemma {:induction false} StaysShut(w: Window, accesses: seq<Access>)
    requires IsShut(w)
    ensures IsShut(AccessedAll(w, accesses)) && AccessedAll(w, accesses).nextNumber == w.nextNumber
    decreases |accesses|
  {
    if accesses != [] {
      StaysShut(Accessed(w, accesses[0]), accesses[1..]);
    }
  }

  lemma {:induction false} AfterAllBounds(w: Window, events: seq<InboxEvent>)
    ensures |AfterAll(w, events).pending| <= |w.pending| + |events|
    decreases |events|
  {
    if events != [] {
      AfterAllBounds(After(w, events[0]), events[1..]);
    }
  }

  /** What is taken out of an increasing sequence in two steps is increasing if each step is. */
  lemma TakenInOrder(taken: seq<Message>, before: seq<Message>, more: seq<Message>)
    requires Increasing(taken) && (forall m :: m in taken ==> m in before) && Increasing(before + more)
    ensures Increasing(taken + more)
  {
    var all := before + more;
    forall i, j | 0 <= i < j < |taken + more| ensures (taken + more)[i].number < (taken + more)[j].number {
      if i < |taken| <= j {
        assert taken[i] in before;
        var k :| 0 <= k < |before| && before[k] == taken[i];
        assert all[k] == taken[i] && all[|before| + j - |taken|] == more[j - |taken|];
      } else if |taken| <= i {
        assert all[|before| + i - |taken|] == more[i - |taken|] && all[|before| + j - |taken|] == more[j - |taken|];
      }
    }
  }

  lemma IncreasingPrefix(shorter: seq<Message>, longer: seq<Message>)
    requires shorter <= longer && Increasing(longer)
    ensures Increasing(shorter)
  {
    forall i, j | 0 <= i < j < |shorter| ensures shorter[i].number < shorter[j].number {
      assert shorter[i] == longer[i] && shorter[j] == longer[j];
    }
  }

  // ----- the worker's loop

  /** One call of `agent.process`: the events during it, and whether it ends by raising */
  datatype AgentCall = AgentCall(events: seq<InboxEvent>, raises: bool)

  /** How many events the calls still bring */
  function EventsLeft(calls: seq<AgentCall>): nat {
    if calls == [] then 0 else |calls[0].events| + EventsLeft(calls[1..])
  }

  function FirstCall(calls: seq<AgentCall>): AgentCall {
    if calls == [] then AgentCall([], false) else calls[0]
  }

  function LaterCalls(calls: seq<AgentCall>): seq<AgentCall> {
    if calls == [] then [] else calls[1..]
  }

  /**
    How a run ends: whether it returns, the inbox, the messages the agent processed for the
    worker, those that were notified but not processed, and those that were not even notified.
   */
  datatype Outcome = Outcome(
    ok: bool, window: Window, processed: seq<Message>, unprocessed: seq<Message>, lost: seq<Message>)

  /**
    The rest of a run after the agent's first call: `todo` is what is left of the batch that
    the worker took. `gap` happens while it waits for the lock to close the window.
   */
  function Serve(
    w: Window, todo: seq<Message>, calls: seq<AgentCall>, gap: seq<InboxEvent>, processed: seq<Message>): Outcome
    decreases EventsLeft(calls) + |w.pending|, |todo|
  {
    if todo != [] then
      var v := AfterAll(w, FirstCall(calls).events);
      AfterAllBounds(w, FirstCall(calls).events);
      if FirstCall(calls).raises then Outcome(false, v.Finish(), processed, todo, v.pending)
      else Serve(v, todo[1..], LaterCalls(calls), gap, processed + [todo[0]])
    else if w.pending != [] then
      Serve(w.Take(), w.pending, calls, gap, processed)
    else
      var v := AfterAll(w, gap);
      Drain(v.Finish(), v.pending, calls, processed)
  }

  /** The messages that arrived before the window closed: each is notified, then processed. */
  function Drain(w: Window, last: seq<Message>, calls: seq<AgentCall>, processed: seq<Message>): Outcome
    decreases |last|
  {
    if last == [] then Outcome(true, w, processed, [], [])
    else
      var v := AfterAll(w.Apply(last[0]), FirstCall(calls).events);
      if FirstCall(calls).raises then Outcome(false, v.Finish(), processed, [last[0]], last[1..])
      else Drain(v, last[1..], LaterCalls(calls), processed + [last[0]])
  }

  function Process(w: Window, calls: seq<AgentCall>, gap: seq<InboxEvent>): Outcome {
    var v := AfterAll(w.Begin(), FirstCall(calls).events);
    if FirstCall(calls).raises then Outcome(false, v.Finish(), [], [], v.pending)
    else Serve(v, [], LaterCalls(calls), gap, [])
  }

  /**
    The inbox part of `_process_message_internal`: the agent runs on the message that started
    the run, then on what the inbox holds until it holds nothing, then on what arrived before
    the window closed.
   */
  method ProcessMessage(inbox: SteeringInbox, calls: seq<AgentCall>, gap: seq<InboxEvent>) returns (ok: bool)
    modifies inbox
    ensures
      var outcome := Process(old(inbox.Snapshot()), calls, gap);
      ok == outcome.ok && inbox.Snapshot() == outcome.window
  {
    ghost var outcome := Process(inbox.Snapshot(), calls, gap);
    var rest := calls;
    ghost var processed: seq<Message> := [];
    inbox.BeginRun();
    ok, rest := CallAgent(inbox, rest);
    if !ok {
      return;
    }
    while true
      invariant Serve(inbox.Snapshot(), [], rest, gap, processed) == outcome
      decreases EventsLeft(rest) + |inbox.pending|
    {
      ghost var before := inbox.Snapshot();
      var pending := inbox.Consume();
      if pending == [] {
        assert before.Take() == before by {
          assert before.applied + [] == before.applied;
        }
        break;
      }
      ghost var bound := EventsLeft(rest);
      assert pending[0..] == pending;
      for i := 0 to |pending|
        invariant Serve(inbox.Snapshot(), pending[i..], rest, gap, processed) == outcome
        invariant EventsLeft(rest) + |inbox.pending| <= bound
      {
        ok, rest := CallAgent(inbox, rest);
        if !ok {
          return;
        }
        assert pending[i..][1..] == pending[i + 1..];
        processed := processed + [pending[i]];
      }
      assert pending[|pending|..] == [];
    }
    inbox.Meanwhile(gap);
    var last := inbox.FinishRun();
    ok := ProcessLast(inbox, last, rest, processed);
  }

  /** The messages that arrived before the window closed: each is notified, then processed. */
  method ProcessLast(inbox: SteeringInbox, last: seq<Message>, calls: seq<AgentCall>, ghost before: seq<Message>)
    returns (ok: bool)
    modifies inbox
    ensures
      var outcome := Drain(old(inbox.Snapshot()), last, calls, before);
      ok == outcome.ok && inbox.Snapshot() == outcome.window
  {
    ghost var outcome := Drain(inbox.Snapshot(), last, calls, before);
    var rest := calls;
    ghost var processed := before;
    assert last[0..] == last;
    for i := 0 to |last|
      invariant Drain(inbox.Snapshot(), last[i..], rest, processed) == outcome
    {
      inbox.applied := inbox.applied + [last[i]];
      ok, rest := CallAgent(inbox, rest);
      if !ok {
        return;
      }
      assert last[i..][1..] == last[i + 1..];
      processed := processed + [last[i]];
    }
    ok := true;
    assert last[|last|..] == [];
  }

  /** One `agent.process` call of the worker; when it raises, the window is closed and its messages are dropped. */
  method CallAgent(inbox: SteeringInbox, calls: seq<AgentCall>) returns (ok: bool, rest: seq<AgentCall>)
    modifies inbox
    ensures ok == !FirstCall(calls).raises && rest == LaterCalls(calls)
    ensures
      var v := AfterAll(old(inbox.Snapshot()), FirstCall(calls).events);
      inbox.Snapshot() == if ok then v else v.Finish()
    ensures EventsLeft(rest) + |inbox.pending| <= EventsLeft(calls) + |old(inbox.pending)|
  {
    AfterAllBounds(inbox.Snapshot(), FirstCall(calls).events);
    inbox.Meanwhile(FirstCall(calls).events);
    ok, rest := !FirstCall(calls).raises, LaterCalls(calls);
    if !ok {
      var _ := inbox.FinishRun();
    }
  }

  // ----- what becomes of the accepted messages

  /** The messages notified so far: each was taken by the graph, or processed, or is still to do. */
  ghost predicate Accounted(
    applied: seq<Message>, injected: seq<Message>, processed: seq<Message>, todo: seq<Message>)
  {
    && multiset(applied) == multiset(injected) + multiset(processed) + multiset(todo)
    && Increasing(processed + todo)
    && forall m :: m in processed + todo ==> m in applied
  }

  lemma AccountGraph(w: Window, v: Window, processed: seq<Message>, todo: seq<Message>)
    requires Accounted(w.applied, w.injected, processed, todo)
    requires w.applied <= v.applied && v.injected == w.injected + v.applied[|w.applied|..]
    ensures Accounted(v.applied, v.injected, processed, todo)
  {
    assert v.applied == w.applied + v.applied[|w.applied|..];
  }

  lemma AccountTake(applied: seq<Message>, injected: seq<Message>, processed: seq<Message>, batch: seq<Message>)
    requires Accounted(applied, injected, processed, []) && Increasing(applied + batch)
    ensures Accounted(applied + batch, injected, processed, batch)
  {
    assert processed + [] == processed;
    TakenInOrder(processed, applied, batch);
  }

  lemma AccountDone(applied: seq<Message>, injected: seq<Message>, processed: seq<Message>, todo: seq<Message>)
    requires todo != [] && Accounted(applied, injected, processed, todo)
    ensures Accounted(applied, injected, processed + [todo[0]], todo[1..])
  {
    assert todo == [todo[0]] + todo[1..];
    assert processed + todo == processed + [todo[0]] + todo[1..];
  }

  /**
    At the end nothing is pending and no window is open. What was accepted was applied, in the
    order of acceptance, but for what the run lost or a cleanup dropped; what was applied was
    taken by the graph, or processed here in order, or is left unprocessed.
   */
  ghost predicate Settled(o: Outcome) {
    && !o.window.running && o.window.pending == []
    && Increasing(o.window.accepted) && Increasing(o.window.injected)
    && o.window.accepted == o.window.applied + o.lost + o.window.dropped
    && (o.window.dropped != [] ==> o.window.closed)
    && Accounted(o.window.applied, o.window.injected, o.processed, o.unprocessed)
    && (o.ok ==> o.lost == [])
  }

  lemma {:induction false} DrainSettles(w: Window, last: seq<Message>, calls: seq<AgentCall>, processed: seq<Message>)
    requires w.Valid() && !w.running && w.Complete(last) && Accounted(w.applied, w.injected, processed, [])
    ensures Settled(Drain(w, last, calls, processed))
    ensures Drain(w, last, calls, processed).unprocessed == [] <==> Drain(w, last, calls, processed).ok
    decreases |last|
  {
    hide Accounted, Increasing;
    if last == [] {
      assert w.applied + [] + last == w.applied + [];
    } else {
      var u := w.Apply(last[0]);
      assert last == [last[0]] + last[1..];
      assert u.Valid() && u.Complete(last[1..]);
      IncreasingPrefix(u.applied, w.accepted);
      AccountTake(w.applied, w.injected, processed, [last[0]]);
      var v := AfterAll(u, FirstCall(calls).events);
      AfterAllKeeps(u, FirstCall(calls).events, last[1..]);
      AccountGraph(u, v, processed, [last[0]]);
      assert [last[0]][1..] == [];
      if FirstCall(calls).raises {
        assert v.applied + [] + last[1..] == v.applied + last[1..];
      } else {
        AccountDone(v.applied, v.injected, processed, [last[0]]);
        DrainSettles(v, last[1..], LaterCalls(calls), processed + [last[0]]);
      }
    }
  }

  lemma {:induction false} ServeSettles(
    w: Window, todo: seq<Message>, calls: seq<AgentCall>, gap: seq<InboxEvent>, processed: seq<Message>)
    requires w.Valid() && w.Complete([]) && (w.running ==> w.dropped == [])
    requires Accounted(w.applied, w.injected, processed, todo)
    ensures Settled(Serve(w, todo, calls, gap, processed))
    ensures Serve(w, todo, calls, gap, processed).unprocessed == [] <==> Serve(w, todo, calls, gap, processed).ok
    decreases EventsLeft(calls) + |w.pending|, |todo|
  {
    hide Accounted, Increasing;
    if todo != [] {
      var v := AfterAll(w, FirstCall(calls).events);
      AfterAllBounds(w, FirstCall(calls).events);
      AfterAllKeeps(w, FirstCall(calls).events, []);
      AccountGraph(w, v, processed, todo);
      if FirstCall(calls).raises {
        RaisedSettles(v, processed, todo);
      } else {
        AccountDone(v.applied, v.injected, processed, todo);
        ServeSettles(v, todo[1..], LaterCalls(calls), gap, processed + [todo[0]]);
      }
    } else if w.pending != [] {
      TakeKeeps(w);
      IncreasingPrefix(w.applied + w.pending, w.accepted);
      AccountTake(w.applied, w.injected, processed, w.pending);
      ServeSettles(w.Take(), w.pending, calls, gap, processed);
    } else {
      var v := AfterAll(w, gap);
      AfterAllKeeps(w, gap, []);
      AccountGraph(w, v, processed, []);
      assert v.applied + v.pending + [] == v.applied + [] + v.pending;
      DrainSettles(v.Finish(), v.pending, calls, processed);
    }
  }

  lemma TakeKeeps(w: Window)
    requires w.Valid() && w.Complete([])
    ensures w.Take().Valid() && w.Take().Complete([])
  {
  }

  lemma BeginStarts(w: Window)
    requires w.Valid()
    requires Increasing(w.pending) && forall m :: m in w.pending ==> m.number < w.nextNumber
    ensures
      var u := w.Begin();
      u.Valid() && u.Complete([]) && u.dropped == [] && Accounted(u.applied, u.injected, [], [])
  {
  }

  /** When a call raises inside the window, what is pending is lost. */
  lemma RaisedSettles(v: Window, processed: seq<Message>, todo: seq<Message>)
    requires v.Valid() && v.Complete([]) && Accounted(v.applied, v.injected, processed, todo)
    ensures Settled(Outcome(false, v.Finish(), processed, todo, v.pending))
  {
    hide Accounted, Increasing;
    assert v.applied + v.pending + [] + v.dropped == v.applied + v.pending + v.dropped;
  }

  // ----- when a run returns

  /** The calls with the same events, none of which raises */
  function Calmed(calls: seq<AgentCall>): (calm: seq<AgentCall>)
    ensures |calm| == |calls| && forall i :: 0 <= i < |calls| ==> calm[i] == calls[i].(raises := false)
  {
    if calls == [] then [] else [calls[0].(raises := false)] + Calmed(calls[1..])
  }

  /** None of the first so many calls raises. */
  predicate NoneRaises(calls: seq<AgentCall>, n: nat) {
    forall i :: 0 <= i < n && i < |calls| ==> !calls[i].raises
  }

  lemma {:induction false} CalmedLeavesEvents(calls: seq<AgentCall>)
    ensures EventsLeft(Calmed(calls)) == EventsLeft(calls)
    ensures FirstCall(Calmed(calls)) == FirstCall(calls).(raises := false)
    ensures LaterCalls(Calmed(calls)) == Calmed(LaterCalls(calls))
  {
    if calls != [] {
      CalmedLeavesEvents(calls[1..]);
      assert Calmed(calls)[1..] == Calmed(calls[1..]);
    }
  }

  lemma NoneRaisesLater(calls: seq<AgentCall>, n: nat)
    requires n > 0
    ensures NoneRaises(calls, n) <==> !FirstCall(calls).raises && NoneRaises(LaterCalls(calls), n - 1)
  {
    if !FirstCall(calls).raises && NoneRaises(LaterCalls(calls), n - 1) {
      forall i | 0 <= i < n && i < |calls| ensures !calls[i].raises {
        assert i > 0 ==> calls[i] == LaterCalls(calls)[i - 1];
      }
    }
    if NoneRaises(calls, n) {
      assert forall i :: 0 <= i < |LaterCalls(calls)| ==> LaterCalls(calls)[i] == calls[i + 1];
    }
  }

  lemma DrainUnfolds(w: Window, last: seq<Message>, calls: seq<AgentCall>, processed: seq<Message>)
    requires last != []
    ensures
      var v := AfterAll(w.Apply(last[0]), FirstCall(calls).events);
      Drain(w, last, calls, processed) ==
        if FirstCall(calls).raises then Outcome(false, v.Finish(), processed, [last[0]], last[1..])
        else Drain(v, last[1..], LaterCalls(calls), processed + [last[0]])
  {
    hide AfterAll, FirstCall, LaterCalls;
  }

  lemma {:induction false} DrainReturns(w: Window, last: seq<Message>, calls: seq<AgentCall>, processed: seq<Message>)
    ensures
      var o, calm := Drain(w, last, calls, processed), Drain(w, last, Calmed(calls), processed);
      && |calm.processed| == |processed| + |last| && (o.ok ==> o == calm)
      && (o.ok <==> NoneRaises(calls, |calm.processed| - |processed|))
    decreases |last|
  {
    if last != [] {
      hide NoneRaises, Calmed, AfterAll, FirstCall, LaterCalls, Drain;
      DrainUnfolds(w, last, calls, processed);
      DrainUnfolds(w, last, Calmed(calls), processed);
      CalmedLeavesEvents(calls);
      NoneRaisesLater(calls, |last|);
      DrainReturns(
        AfterAll(w.Apply(last[0]), FirstCall(calls).events), last[1..], LaterCalls(calls), processed + [last[0]]);
    }
  }

  lemma {:induction false} ServeReturns(
    w: Window, todo: seq<Message>, calls: seq<AgentCall>, gap: seq<InboxEvent>, processed: seq<Message>)
    ensures
      var o, calm := Serve(w, todo, calls, gap, processed), Serve(w, todo, Calmed(calls), gap, processed);
      && |calm.processed| >= |processed| + |todo| && (o.ok ==> o == calm)
      && (o.ok <==> NoneRaises(calls, |calm.processed| - |processed|))
    decreases EventsLeft(calls) + |w.pending|, |todo|
  {
    hide NoneRaises, Calmed, AfterAll;
    CalmedLeavesEvents(calls);
    if todo != [] {
      var v := AfterAll(w, FirstCall(calls).events);
      AfterAllBounds(w, FirstCall(calls).events);
      ServeReturns(v, todo[1..], LaterCalls(calls), gap, processed + [todo[0]]);
      NoneRaisesLater(calls, |Serve(w, todo, Calmed(calls), gap, processed).processed| - |processed|);
    } else if w.pending != [] {
      ServeReturns(w.Take(), w.pending, calls, gap, processed);
    } else {
      var v := AfterAll(w, gap);
      DrainReturns(v.Finish(), v.pending, calls, processed);
    }
  }

  /**
    A run calls the agent for the message that started it and for each that it would process if
    no call raised. It returns if and only if none of these calls raises, and then it does
    exactly that.
   */
  lemma ReturnsExactly(w: Window, calls: seq<AgentCall>, gap: seq<InboxEvent>)
    ensures
      var o, calm := Process(w, calls, gap), Process(w, Calmed(calls), gap);
      (o.ok <==> NoneRaises(calls, 1 + |calm.processed|)) && (o.ok ==> o == calm)
  {
    var v := AfterAll(w.Begin(), FirstCall(calls).events);
    hide NoneRaises, Calmed, AfterAll, Serve;
    CalmedLeavesEvents(calls);
    ServeReturns(v, [], LaterCalls(calls), gap, []);
    NoneRaisesLater(calls, 1 + |Process(w, Calmed(calls), gap).processed|);
  }

  /**
    Every run settles. A run that returns has applied and seen to everything it accepted but
    for what a cleanup dropped. A run that raises leaves messages that were applied and never
    processed, unless it raises in the very first call, before any was taken from the inbox.
   */
  lemma ProcessSettles(w: Window, calls: seq<AgentCall>, gap: seq<InboxEvent>)
    requires w.Valid()
    requires Increasing(w.pending) && forall m :: m in w.pending ==> m.number < w.nextNumber
    ensures Settled(Process(w, calls, gap))
    ensures
      var calm := Process(w, Calmed(calls), gap);
      Process(w, calls, gap).unprocessed == [] <==> FirstCall(calls).raises || NoneRaises(calls, 1 + |calm.processed|)
  {
    hide *;
    ReturnsExactly(w, calls, gap);
    BeginStarts(w);
    var u := w.Begin();
    var v := AfterAll(u, FirstCall(calls).events);
    AfterAllKeeps(u, FirstCall(calls).events, []);
    AccountGraph(u, v, [], []);
    FirstOfProcess(w, calls, gap);
    if FirstCall(calls).raises {
      RaisedSettles(v, [], []);
    } else {
      ServeSettles(v, [], LaterCalls(calls), gap, []);
    }
  }

  lemma FirstOfProcess(w: Window, calls: seq<AgentCall>, gap: seq<InboxEvent>)
    ensures
      var v := AfterAll(w.Begin(), FirstCall(calls).events);
      Process(w, calls, gap) ==
        if FirstCall(calls).raises then Outcome(false, v.Finish(), [], [], v.pending)
        else Serve(v, [], LaterCalls(calls), gap, [])
  {
    hide AfterAll, Serve, FirstCall, LaterCalls;
  }

  /**
    Two messages arrive during the first call and are applied; the call for the first of them
    raises, while a third one arrives: two are applied and not processed, one is lost.
   */
  lemma RaisingRunLoses(user: string, a: string, b: string, c: string)
    ensures
      var w := Window(user, [], false, false, 0, [], [], [], []);
      var calls := [AgentCall([Submit(user, a), Submit(user, b)], false), AgentCall([Submit(user, c)], true)];
      var o := Process(w, calls, []);
      && w.Valid() && !o.ok && o.processed == []
      && o.window.applied == o.unprocessed == [Message(0, a), Message(1, b)] && o.lost == [Message(2, c)]
  {
    var w := Window(user, [], false, false, 0, [], [], [], []);
    var first, second := AgentCall([Submit(user, a), Submit(user, b)], false), AgentCall([Submit(user, c)], true);
    var calls := [first, second];
    var none: seq<Message> := [];
    assert none + [Message(0, a)] == [Message(0, a)];
    var w1 := w.Begin().Enqueue(user, a);
    var w2 := w1.Enqueue(user, b);
    assert w2.pending == [Message(0, a), Message(1, b)];
    assert first.events[1..] == [Submit(user, b)] && first.events[1..][1..] == [];
    assert AfterAll(w.Begin(), first.events) == AfterAll(w1, first.events[1..]) == w2;
    assert calls[1..] == [second];
    var w3 := w2.Take();
    assert Process(w, calls, []) == Serve(w2, [], [second], [], []) == Serve(w3, w2.pending, [second], [], []);
    var w4 := w3.Enqueue(user, c);
    assert second.events[1..] == [];
    assert AfterAll(w3, second.events) == AfterAll(w4, second.events[1..]) == w4;
    assert w4.pending == none + [Message(2, c)] == [Message(2, c)];
    assert none + w2.pending == w2.pending;
  }
}
