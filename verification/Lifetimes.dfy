/**
 The life of one timer over whole runs, whatever the other timers do and whatever order
 the heap is in: how often its callback runs, when it fires, and what is left of it after
 a cancel.
 */
module Lifetimes {
  import opened Common
  import opened Protocol
  import opened ProtocolRuns

  predicate Mentions(o: Obs, id: nat) {
    !o.FreedCallback? && o.id == id
  }

  /** How many expiry messages of the timer are received. */
  function Deliveries(tr: seq<Obs>, id: nat): nat {
    if tr == [] then 0
    else (if tr[0].Delivered? && tr[0].id == id then 1 else 0) + Deliveries(tr[1..], id)
  }

  lemma {:induction false} DeliveriesConcat(a: seq<Obs>, b: seq<Obs>, id: nat)
    ensures Deliveries(a + b, id) == Deliveries(a, id) + Deliveries(b, id)
  {
    if a == [] {
      assert a + b == b;
    } else {
      assert (a + b)[1..] == a[1..] + b;
      DeliveriesConcat(a[1..], b, id);
    }
  }

  lemma {:induction false} NotDelivered(tr: seq<Obs>, id: nat)
    requires forall o | o in tr && o.Delivered? :: o.id != id
    ensures Deliveries(tr, id) == 0
  {
    if tr != [] {
      NotDelivered(tr[1..], id);
    }
  }

  lemma OthersSilent(w: World, e: Event, id: nat)
    requires Inv(w) && Enabled(w, e) && Subject(w, e) != Some(id)
    ensures forall o | o in Observe(w, e) :: !Mentions(o, id)
    ensures Deliveries(Observe(w, e), id) == 0
  {
    ReachedTimersAreLive(w, e);
    NotDelivered(Observe(w, e), id);
  }

  lemma OneDelivery(r: TimerRec, id: nat, q: nat)
    ensures Deliveries([Delivered(id, q)] + ObserveProcessing(r, id), id) == 1
  {
    var o := ObserveProcessing(r, id);
    NotDelivered(o, id);
    assert ([Delivered(id, q)] + o)[1..] == o;
  }

  lemma DeliverShape(w: World, e: Event)
    requires Inv(w) && Enabled(w, e) && e.Deliver?
    ensures w.queues[e.queue][0] in w.timers
    ensures var id := w.queues[e.queue][0];
            && Observe(w, e) == [Delivered(id, e.queue)] + ObserveProcessing(w.timers[id], id)
            && Deliveries(Observe(w, e), id) == 1
            && id in InFlight(w.queues)
  {
    ReachedTimersAreLive(w, e);
    var id := w.queues[e.queue][0];
    OneDelivery(w.timers[id], id, e.queue);
    assert id in multiset(w.queues[e.queue]);
  }

  /** What delivering a message of timer id from queue q does, and what is seen of it. */
  ghost predicate Delivers(w: World, w': World, o: seq<Obs>, id: nat, q: nat)
    requires |w.queues| == |w'.queues| == MAX_TASKS && id in w.timers
  {
    var r := w.timers[id];
    && RecOk(r, false, true)
    && w.heap[id] == 0 && InFlight(w.queues)[id] == 1 && InFlight(w'.queues)[id] == 0
    && w'.clock == w.clock
    && Deliveries(o, id) == 1
    && if r.pCb.None? then
         w'.timers == w.timers && w'.heap == w.heap && o == [Delivered(id, q)]
       else if Rearms(r) then
         && w'.timers == w.timers[id := Rearmed(w.clock, r)] && w'.heap == w.heap + multiset{id}
         && o == [Delivered(id, q), Triggered(id, r.pCb.value)]
       else
         && id !in w'.timers && w'.heap[id] == 0 && w'.deleted == w.deleted + Owned(r)
         && o == [Delivered(id, q), Triggered(id, r.pCb.value), FreedCallback(r.pCb.value), FreedTimer(id)]
  }

  lemma ProcessEffect(w: World, q: nat, o: seq<Obs>)
    requires |w.queues| == MAX_TASKS && q < MAX_TASKS && w.queues[q] != [] && w.queues[q][0] in w.timers
    requires var id := w.queues[q][0];
             && RecOk(w.timers[id], false, true) && w.heap[id] == 0 && InFlight(w.queues)[id] == 1
             && o == [Delivered(id, q)] + ObserveProcessing(w.timers[id], id) && Deliveries(o, id) == 1
    ensures Delivers(w, DeliverFrom(w, q), o, w.queues[q][0], q)
  {
    QueueDequeue(w.queues, q);
    var id := w.queues[q][0];
    var r := w.timers[id];
    assert r.pCb.None? ==> o == [Delivered(id, q)];
  }

  lemma DeliverEffect(w: World, e: Event)
    requires Inv(w) && Enabled(w, e) && e.Deliver?
    ensures w.queues[e.queue][0] in w.timers
    ensures Delivers(w, Next(w, e), Observe(w, e), w.queues[e.queue][0], e.queue)
  {
    DeliverShape(w, e);
    assert TimerOk(w, w.queues[e.queue][0]);
    ProcessEffect(w, e.queue, Observe(w, e));
  }

  /** What an iteration of the timer task with `top` in slot 0 does, and what is seen of it. */
  ghost predicate Iterates(w: World, w': World, o: seq<Obs>, top: nat)
    requires |w.queues| == |w'.queues| == MAX_TASKS && top in w.timers
  {
    var r := w.timers[top];
    && RecOk(r, true, false)
    && w.heap[top] == 1 && InFlight(w.queues)[top] == 0
    && w'.clock == w.clock
    && if Due(w, top) && r.state == Active then
         && w'.timers == w.timers[top := r.(fired := (r.fired + 1) % TWO_32, state := Done)]
         && w'.heap == w.heap - multiset{top} && InFlight(w'.queues)[top] == 1
         && o == [Fired(top, r.task, r.whenToFire, w.clock)]
       else
         && w'.timers == (if Due(w, top) then w.timers[top := Rearmed(w.clock, r)] else w.timers)
         && w'.heap == w.heap && w'.queues == w.queues
         && o == []
  }

  lemma IterateEffect(w: World, e: Event)
    requires Inv(w) && Enabled(w, e) && e.Iterate?
    ensures e.top in w.timers
    ensures Iterates(w, Next(w, e), Observe(w, e), e.top)
  {
    ReachedTimersAreLive(w, e);
    QueueEnqueue(w.queues, w.timers[e.top].task, e.top);
    assert TimerOk(w, e.top);
    assert w.heap - multiset{e.top} + multiset{e.top} == w.heap;
  }

  // ---------- Which task it belongs to ----------

  predicate OfTask(w: World, id: nat, task: nat) {
    id in w.timers ==> w.timers[id].task == task
  }

  /** What is seen of the timer has to do with its task alone. */
  ghost predicate TaskOnly(o: seq<Obs>, id: nat, task: nat) {
    forall x | x in o :: (x.Fired? && x.id == id ==> x.task == task) && (x.Delivered? && x.id == id ==> x.queue == task)
  }

  lemma SilentTaskOnly(o: seq<Obs>, id: nat, task: nat)
    requires forall x | x in o :: !Mentions(x, id)
    ensures TaskOnly(o, id, task)
  {
    forall x | x in o
      ensures (x.Fired? && x.id == id ==> x.task == task) && (x.Delivered? && x.id == id ==> x.queue == task)
    {
      assert !Mentions(x, id);
    }
  }

  lemma IterationKeepsTask(w: World, e: Event, task: nat)
    requires Inv(w) && Enabled(w, e) && e.Iterate? && OfTask(w, e.top, task)
    ensures OfTask(Next(w, e), e.top, task) && TaskOnly(Observe(w, e), e.top, task)
  {
    IterateEffect(w, e);
  }

  lemma DeliveryKeepsTask(w: World, e: Event, task: nat)
    requires Inv(w) && Enabled(w, e) && e.Deliver? && OfTask(w, w.queues[e.queue][0], task)
    ensures OfTask(Next(w, e), w.queues[e.queue][0], task)
    ensures TaskOnly(Observe(w, e), w.queues[e.queue][0], task)
  {
    DeliverEffect(w, e);
    MessageNamesTimer(w, e.queue, w.queues[e.queue][0]);
  }

  lemma CallKeepsTask(w: World, e: Event, task: nat)
    requires Inv(w) && Enabled(w, e) && (e.Schedule? || e.Cancel? || e.Restart? || e.Stop? || e.Delete?)
    requires OfTask(w, e.id, task)
    ensures OfTask(Next(w, e), e.id, task) && TaskOnly(Observe(w, e), e.id, task)
  {
    CallsSendNothing(w, e);
  }

  lemma StepKeepsTask(w: World, e: Event, id: nat, task: nat)
    requires Inv(w) && Enabled(w, e) && OfTask(w, id, task) && !(e.New? && e.id == id)
    ensures OfTask(Next(w, e), id, task) && TaskOnly(Observe(w, e), id, task)
  {
    if Subject(w, e) != Some(id) {
      OthersUntouched(w, e, id);
      OthersSilent(w, e, id);
      SilentTaskOnly(Observe(w, e), id, task);
    } else if e.Iterate? {
      IterationKeepsTask(w, e, task);
    } else if e.Deliver? {
      DeliveryKeepsTask(w, e, task);
    } else {
      CallKeepsTask(w, e, task);
    }
  }

  // From new on, until the slot is used anew, a timer's messages go to the task it was made
  // for, and to no other.
  lemma {:induction false} TaskKept(w: World, es: seq<Event>, id: nat, task: nat)
    requires Inv(w) && Runs(w, es) && OfTask(w, id, task)
    requires forall e | e in es :: !(e.New? && e.id == id)
    ensures OfTask(Final(w, es), id, task) && TaskOnly(Trace(w, es), id, task)
    decreases es
  {
    if es != [] {
      StepKeepsTask(w, es[0], id, task);
      TaskKept(Next(w, es[0]), es[1..], id, task);
    }
  }

  lemma MessagesToOwnTask(w: World, id: nat, task: nat, es: seq<Event>)
    requires Inv(w) && Enabled(w, New(id, task)) && Runs(Next(w, New(id, task)), es)
    requires forall e | e in es :: !(e.New? && e.id == id)
    ensures TaskOnly(Trace(Next(w, New(id, task)), es), id, task)
  {
    TaskKept(Next(w, New(id, task)), es, id, task);
  }

  // ---------- After a cancel ----------

  /** Where the timer still is: in the heap or on its way as a message. */
  function Places(w: World, id: nat): nat
    requires |w.queues| == MAX_TASKS
  {
    w.heap[id] + InFlight(w.queues)[id]
  }

  predicate Cancelled(w: World, id: nat) {
    id in w.timers ==> w.timers[id].pCb == None
  }

  /** The step gives the timer, or a new timer in its slot, a new life. */
  predicate Revives(e: Event, id: nat) {
    (e.New? || e.Schedule?) && e.id == id
  }

  predicate Withdraws(e: Event, id: nat) {
    (e.Stop? || e.Delete?) && e.id == id
  }

  lemma CancelledDelivery(w: World, e: Event)
    requires Inv(w) && Enabled(w, e) && e.Deliver? && Cancelled(w, w.queues[e.queue][0])
    ensures var id := w.queues[e.queue][0];
            && Observe(w, e) == [Delivered(id, e.queue)]
            && Next(w, e).timers == w.timers
            && Places(w, id) == Places(Next(w, e), id) + 1
  {
    DeliverEffect(w, e);
  }

  lemma CancelledIteration(w: World, e: Event)
    requires Inv(w) && Enabled(w, e) && e.Iterate? && Cancelled(w, e.top)
    ensures Cancelled(Next(w, e), e.top)
    ensures Places(w, e.top) == Places(Next(w, e), e.top)
    ensures forall o | o in Observe(w, e) :: o.Fired?
  {
    IterateEffect(w, e);
  }

  lemma CancelledCall(w: World, e: Event)
    requires Inv(w) && Enabled(w, e) && (e.Cancel? || e.Restart? || e.Stop? || e.Delete?)
    requires Cancelled(w, e.id)
    ensures Cancelled(Next(w, e), e.id)
    ensures Places(Next(w, e), e.id) <= Places(w, e.id)
    ensures !Withdraws(e, e.id) ==> Places(Next(w, e), e.id) == Places(w, e.id)
    ensures forall o | o in Observe(w, e) :: o.FreedCallback? || o.FreedTimer?
  {
  }

  /** What a step from w to w' with observations o does to a cancelled timer: its callback
      does not run, and a delivered message is one place less to be in. */
  ghost predicate StaysCancelled(w: World, w': World, o: seq<Obs>, id: nat, withdrawn: bool)
    requires |w.queues| == |w'.queues| == MAX_TASKS
  {
    && Cancelled(w', id)
    && (forall x | x in o && x.Triggered? :: x.id != id)
    && Deliveries(o, id) + Places(w', id) <= Places(w, id)
    && (!withdrawn ==> Deliveries(o, id) + Places(w', id) == Places(w, id))
  }

  lemma CancelledElsewhere(w: World, e: Event, id: nat)
    requires Inv(w) && Enabled(w, e) && Cancelled(w, id) && Subject(w, e) != Some(id)
    ensures StaysCancelled(w, Next(w, e), Observe(w, e), id, false)
  {
    OthersUntouched(w, e, id);
    OthersSilent(w, e, id);
  }

  lemma CancelledDelivered(w: World, e: Event)
    requires Inv(w) && Enabled(w, e) && e.Deliver? && Cancelled(w, w.queues[e.queue][0])
    ensures StaysCancelled(w, Next(w, e), Observe(w, e), w.queues[e.queue][0], false)
  {
    CancelledDelivery(w, e);
    assert Observe(w, e)[1..] == [];
  }

  lemma CancelledIterated(w: World, e: Event)
    requires Inv(w) && Enabled(w, e) && e.Iterate? && Cancelled(w, e.top)
    ensures StaysCancelled(w, Next(w, e), Observe(w, e), e.top, false)
  {
    CancelledIteration(w, e);
    NotDelivered(Observe(w, e), e.top);
  }

  lemma CancelledCalled(w: World, e: Event)
    requires Inv(w) && Enabled(w, e) && (e.Cancel? || e.Restart? || e.Stop? || e.Delete?)
    requires Cancelled(w, e.id)
    ensures StaysCancelled(w, Next(w, e), Observe(w, e), e.id, Withdraws(e, e.id))
  {
    CancelledCall(w, e);
    NotDelivered(Observe(w, e), e.id);
  }

  lemma CancelledStep(w: World, e: Event, id: nat)
    requires Inv(w) && Enabled(w, e) && Cancelled(w, id) && !Revives(e, id)
    ensures StaysCancelled(w, Next(w, e), Observe(w, e), id, Withdraws(e, id))
  {
    if Subject(w, e) != Some(id) {
      CancelledElsewhere(w, e, id);
    } else if e.Deliver? {
      CancelledDelivered(w, e);
    } else if e.Iterate? {
      CancelledIterated(w, e);
    } else {
      CancelledCalled(w, e);
    }
  }

  lemma {:induction false} CancelledRun(w: World, es: seq<Event>, id: nat)
    requires Inv(w) && Runs(w, es) && Cancelled(w, id)
    requires forall e | e in es :: !Revives(e, id)
    ensures Cancelled(Final(w, es), id)
    ensures forall o | o in Trace(w, es) && o.Triggered? :: o.id != id
    ensures Deliveries(Trace(w, es), id) + Places(Final(w, es), id) <= Places(w, id)
    ensures (forall e | e in es :: !Withdraws(e, id)) ==>
              Deliveries(Trace(w, es), id) + Places(Final(w, es), id) == Places(w, id)
    decreases es
  {
    if es != [] {
      var w' := Next(w, es[0]);
      CancelledStep(w, es[0], id);
      CancelledRun(w', es[1..], id);
      DeliveriesConcat(Observe(w, es[0]), Trace(w', es[1..]), id);
    }
  }

  // After cancel() no run invokes the callback, at most one message of the timer is still
  // delivered, and from then on the timer is in neither heap nor queue.
  lemma CancelIsFinal(w: World, id: nat, es: seq<Event>)
    requires Inv(w) && Enabled(w, Cancel(id)) && Runs(Next(w, Cancel(id)), es)
    requires forall e | e in es :: !Revives(e, id)
    ensures var tr, w' := Trace(Next(w, Cancel(id)), es), Final(Next(w, Cancel(id)), es);
            && (forall o | o in tr && o.Triggered? :: o.id != id)
            && Deliveries(tr, id) <= 1
            && (Deliveries(tr, id) == 1 ==> id !in w'.heap && id !in InFlight(w'.queues))
            && ((forall e | e in es :: !Withdraws(e, id)) ==>
                  Deliveries(tr, id) + Places(w', id) == Places(w, id))
  {
    var w1 := Next(w, Cancel(id));
    assert TimerOk(w1, id);
    CancelledRun(w1, es, id);
  }

  // ---------- How often a callback runs ----------

  /** A step of the application that gives this very timer a new life or ends the one it
      has. */
  predicate Alters(e: Event, id: nat) {
    (e.New? || e.Schedule? || e.Cancel? || e.Delete?) && e.id == id
  }

  /** Any step of the application on this very timer, a stop or a restart included. */
  predicate Disturbs(e: Event, id: nat) {
    Alters(e, id) || ((e.Stop? || e.Restart?) && e.id == id)
  }

  /** Whether the firings run out: a one-shot's do, a periodic timer's unless its limit is
      zero or the largest 32-bit number, which the counter never exceeds. */
  predicate Finite(r: TimerRec) {
    r.kind == OneShot || (r.kind == Periodic && 0 < r.howMany < TWO_32 - 1)
  }

  /** The timer has callback cb and has not used up its firings; it may be stopped. */
  predicate Kept(w: World, id: nat, cb: nat)
    requires |w.queues| == MAX_TASKS
  {
    && id in w.timers
    && w.timers[id].pCb == Some(cb)
    && w.timers[id].howMany < TWO_32
    && (w.timers[id].kind == Periodic && Finite(w.timers[id]) ==>
          if id in InFlight(w.queues) then 1 <= w.timers[id].fired <= w.timers[id].howMany + 1
          else w.timers[id].fired <= w.timers[id].howMany)
  }

  /** The timer is on its way round between heap and callback task with callback cb. */
  predicate Running(w: World, id: nat, cb: nat)
    requires |w.queues| == MAX_TASKS
  {
    Kept(w, id, cb) && Places(w, id) == 1
  }

  /** The number of messages still to be delivered to a finite timer. */
  function Lifetime(w: World, id: nat): nat
    requires id in w.timers && |w.queues| == MAX_TASKS
  {
    var r := w.timers[id];
    if r.kind != Periodic then 1
    else if id in InFlight(w.queues) then r.howMany + 2 - (if r.fired <= r.howMany + 1 then r.fired else 0)
    else r.howMany + 1 - (if r.fired <= r.howMany then r.fired else 0)
  }

  ghost predicate SameLife(w: World, w': World, id: nat)
    requires |w.queues| == |w'.queues| == MAX_TASKS && id in w.timers && id in w'.timers
  {
    && (Finite(w'.timers[id]) <==> Finite(w.timers[id]))
    && w'.timers[id].timeout == w.timers[id].timeout
    && w'.timers[id].kind == w.timers[id].kind
  }

  /** What a step from w to w' with observations o does to a timer it does not alter: either
      the timer goes on, with one message fewer to come if the step delivered one,
      or its last message was delivered, and timer and callback are freed. */
  ghost predicate Lives(w: World, w': World, o: seq<Obs>, id: nat, cb: nat)
    requires |w.queues| == |w'.queues| == MAX_TASKS && id in w.timers
  {
    var d := Deliveries(o, id);
    && d <= 1
    && multiset(o)[Triggered(id, cb)] == d
    && if id in w'.timers then
         && Kept(w', id, cb) && SameLife(w, w', id)
         && (Finite(w.timers[id]) ==> Lifetime(w, id) == Lifetime(w', id) + d)
         && FreedTimer(id) !in o && FreedCallback(cb) !in o
       else
         && Finite(w.timers[id]) && Lifetime(w, id) == 1 && d == 1
         && multiset(o)[FreedTimer(id)] == 1 && multiset(o)[FreedCallback(cb)] == 1
         && cb in w'.deleted
  }

  lemma DeliversLives(w: World, w': World, o: seq<Obs>, id: nat, q: nat, cb: nat)
    requires |w.queues| == |w'.queues| == MAX_TASKS && Kept(w, id, cb)
    requires Delivers(w, w', o, id, q)
    ensures Lives(w, w', o, id, cb)
  {
    if Rearms(w.timers[id]) {
      assert multiset(o) == multiset{Delivered(id, q), Triggered(id, cb)};
    } else {
      assert multiset(o) == multiset{Delivered(id, q), Triggered(id, cb), FreedCallback(cb), FreedTimer(id)};
    }
  }

  lemma IteratesLives(w: World, w': World, o: seq<Obs>, top: nat, cb: nat)
    requires |w.queues| == |w'.queues| == MAX_TASKS && Kept(w, top, cb)
    requires Iterates(w, w', o, top) && (o == [] ==> w'.queues == w.queues)
    ensures Lives(w, w', o, top, cb)
  {
    NotDelivered(o, top);
  }

  lemma KeptDelivery(w: World, e: Event, cb: nat)
    requires Inv(w) && Enabled(w, e) && e.Deliver? && Kept(w, w.queues[e.queue][0], cb)
    ensures Lives(w, Next(w, e), Observe(w, e), w.queues[e.queue][0], cb)
  {
    DeliverEffect(w, e);
    DeliversLives(w, Next(w, e), Observe(w, e), w.queues[e.queue][0], e.queue, cb);
  }

  lemma OtherCallbacksSilent(w: World, e: Event, id: nat, cb: nat)
    requires Inv(w) && Enabled(w, e) && Subject(w, e) != Some(id)
    requires id in w.timers && w.timers[id].pCb == Some(cb)
    ensures FreedCallback(cb) !in Observe(w, e)
  {
    if e.Deliver? {
      ReachedTimersAreLive(w, e);
      assert CallbacksApart(w, id, w.queues[e.queue][0]);
    } else if e.Cancel? || e.Delete? {
      assert CallbacksApart(w, id, e.id);
    } else {
      NoCallbacks(w, e);
    }
  }

  lemma SameLives(w: World, w': World, o: seq<Obs>, id: nat, cb: nat)
    requires |w.queues| == |w'.queues| == MAX_TASKS && Kept(w, id, cb) && SameTimer(w, w', id)
    requires Deliveries(o, id) == 0 && FreedCallback(cb) !in o && forall x | x in o :: !Mentions(x, id)
    ensures Lives(w, w', o, id, cb)
  {
    assert Triggered(id, cb) !in o && FreedTimer(id) !in o;
  }

  lemma KeptStep(w: World, e: Event, id: nat, cb: nat)
    requires Inv(w) && Enabled(w, e) && Kept(w, id, cb) && !Alters(e, id)
    ensures Lives(w, Next(w, e), Observe(w, e), id, cb)
  {
    if Subject(w, e) != Some(id) {
      OthersUntouched(w, e, id);
      OthersSilent(w, e, id);
      OtherCallbacksSilent(w, e, id, cb);
      SameLives(w, Next(w, e), Observe(w, e), id, cb);
    } else if e.Iterate? {
      IterateEffect(w, e);
      IteratesLives(w, Next(w, e), Observe(w, e), id, cb);
    } else if e.Deliver? {
      KeptDelivery(w, e, cb);
    } else {
      PauseLives(w, e, cb);
    }
  }

  // A step that does not disturb a running timer leaves it running, or frees it.
  lemma RunningStep(w: World, e: Event, id: nat, cb: nat)
    requires Inv(w) && Enabled(w, e) && Running(w, id, cb) && !Disturbs(e, id)
    ensures Lives(w, Next(w, e), Observe(w, e), id, cb)
    ensures id in Next(w, e).timers ==> Running(Next(w, e), id, cb)
  {
    KeptStep(w, e, id, cb);
    if Subject(w, e) != Some(id) {
      OthersUntouched(w, e, id);
    } else if e.Iterate? {
      IterateEffect(w, e);
    } else {
      DeliverEffect(w, e);
    }
  }

  // Stopping a timer takes it off its way, starting it again puts it back, and neither
  // changes how many messages are still to come.
  lemma PauseLives(w: World, e: Event, cb: nat)
    requires Inv(w) && Enabled(w, e) && (e.Stop? || e.Restart?) && Kept(w, e.id, cb)
    ensures Lives(w, Next(w, e), Observe(w, e), e.id, cb)
    ensures Places(Next(w, e), e.id) == if e.Restart? then 1 else 0
  {
    assert TimerOk(w, e.id);
  }

  lemma {:induction false} FreedSilent(w: World, es: seq<Event>, id: nat)
    requires Inv(w) && Runs(w, es) && id !in w.timers
    requires forall e | e in es :: !Alters(e, id)
    ensures id !in Final(w, es).timers
    ensures forall o | o in Trace(w, es) :: !Mentions(o, id)
    ensures Deliveries(Trace(w, es), id) == 0
    decreases es
  {
    if es != [] {
      var w' := Next(w, es[0]);
      ReachedTimersAreLive(w, es[0]);
      assert !Alters(es[0], id);
      OthersUntouched(w, es[0], id);
      OthersSilent(w, es[0], id);
      FreedSilent(w', es[1..], id);
      DeliveriesConcat(Observe(w, es[0]), Trace(w', es[1..]), id);
    }
  }

  /** The whole story of a run from w to w' with trace tr that does not alter a kept timer:
      the callback runs once for each delivered message; a finite timer is freed, with its
      callback, exactly when the last of its Lifetime messages is delivered, and any other
      timer never. */
  ghost predicate FullLife(w: World, w': World, tr: seq<Obs>, id: nat, cb: nat)
    requires |w.queues| == MAX_TASKS && id in w.timers
  {
    var d := Deliveries(tr, id);
    var freed := if Finite(w.timers[id]) && d == Lifetime(w, id) then 1 else 0;
    && multiset(tr)[Triggered(id, cb)] == d
    && (Finite(w.timers[id]) ==> d <= Lifetime(w, id))
    && multiset(tr)[FreedTimer(id)] == freed
    && multiset(tr)[FreedCallback(cb)] == freed
    && (id in w'.timers <==> freed == 0)
  }

  lemma LivesOn(w: World, w1: World, w': World, a: seq<Obs>, b: seq<Obs>, id: nat, cb: nat)
    requires |w.queues| == |w1.queues| == MAX_TASKS && id in w.timers && id in w1.timers
    requires Lives(w, w1, a, id, cb) && FullLife(w1, w', b, id, cb)
    ensures FullLife(w, w', a + b, id, cb)
  {
    DeliveriesConcat(a, b, id);
    assert multiset(a + b) == multiset(a) + multiset(b);
  }

  lemma LivesNoMore(w: World, w1: World, w': World, a: seq<Obs>, b: seq<Obs>, id: nat, cb: nat)
    requires |w.queues| == |w1.queues| == MAX_TASKS && id in w.timers && id !in w1.timers && id !in w'.timers
    requires Lives(w, w1, a, id, cb)
    requires Deliveries(b, id) == 0 && forall o | o in b :: !Mentions(o, id) && !About(o, cb)
    ensures FullLife(w, w', a + b, id, cb)
  {
    DeliveriesConcat(a, b, id);
    assert multiset(a + b) == multiset(a) + multiset(b);
    assert Triggered(id, cb) !in b && FreedTimer(id) !in b && FreedCallback(cb) !in b;
  }

  lemma {:induction false} KeptRun(w: World, es: seq<Event>, id: nat, cb: nat)
    requires Inv(w) && Runs(w, es) && Kept(w, id, cb)
    requires forall e | e in es :: !Alters(e, id)
    ensures FullLife(w, Final(w, es), Trace(w, es), id, cb)
    decreases es
  {
    if es != [] {
      var w1 := Next(w, es[0]);
      var a, b := Observe(w, es[0]), Trace(w1, es[1..]);
      KeptStep(w, es[0], id, cb);
      if id in w1.timers {
        KeptRun(w1, es[1..], id, cb);
        LivesOn(w, w1, Final(w1, es[1..]), a, b, id, cb);
      } else {
        FreedSilent(w1, es[1..], id);
        DeletedCallbacksSilent(w1, es[1..], cb);
        LivesNoMore(w, w1, Final(w1, es[1..]), a, b, id, cb);
      }
    }
  }

  /** The callback a timer has once it is scheduled: the one it already had wins. */
  function CallbackOf(w: World, e: Event): nat
    requires e.Schedule? && e.id in w.timers
  {
    if w.timers[e.id].pCb.Some? then w.timers[e.id].pCb.value else e.cb
  }

  lemma ScheduledRuns(w: World, e: Event)
    requires Inv(w) && Enabled(w, e) && e.Schedule?
    ensures Running(Next(w, e), e.id, CallbackOf(w, e))
    ensures Next(w, e).timers[e.id] == Scheduled(w.clock, w.timers[e.id], e.cb, e.args)
    ensures e.id in Next(w, e).heap
  {
    assert TimerOk(w, e.id);
    assert TimerOk(Next(w, e), e.id);
  }

  ghost predicate AllKept(w: World)
    requires |w.queues| == MAX_TASKS
  {
    forall id: nat, cb: nat | id in w.timers && w.timers[id].pCb == Some(cb) :: Kept(w, id, cb)
  }

  lemma KeptAfter(w: World, e: Event, id: nat, cb: nat)
    requires Inv(w) && Enabled(w, e) && AllKept(w)
    requires id in Next(w, e).timers && Next(w, e).timers[id].pCb == Some(cb)
    ensures Kept(Next(w, e), id, cb)
  {
    if Subject(w, e) != Some(id) {
      OthersUntouched(w, e, id);
    } else if e.Schedule? {
      ScheduledRuns(w, e);
    } else if !Alters(e, id) {
      ReachedTimersAreLive(w, e);
      if w.timers[id].pCb.Some? {
        KeptStep(w, e, id, w.timers[id].pCb.value);
      } else {
        NoCallbackGiven(w, e, id);
      }
    }
  }

  lemma NoCallbackGiven(w: World, e: Event, id: nat)
    requires Inv(w) && Enabled(w, e) && !Alters(e, id) && id in w.timers && w.timers[id].pCb == None
    ensures id in Next(w, e).timers ==> Next(w, e).timers[id].pCb == None
  {
    assert !Revives(e, id) && Cancelled(w, id);
    CancelledStep(w, e, id);
  }

  lemma {:induction false} KeptAlong(w: World, es: seq<Event>)
    requires Inv(w) && Runs(w, es) && AllKept(w)
    ensures AllKept(Final(w, es))
    decreases es
  {
    if es != [] {
      var w' := Next(w, es[0]);
      forall id: nat, cb: nat | id in w'.timers && w'.timers[id].pCb == Some(cb) ensures Kept(w', id, cb) {
        KeptAfter(w, es[0], id, cb);
      }
      KeptAlong(w', es[1..]);
    }
  }

  // In every state the service reaches, a timer that has a callback has firings left: all that
  // is said here of kept timers holds of any timer with a callback.
  lemma ReachedIsKept(es: seq<Event>, id: nat, cb: nat)
    requires Inv(EMPTY) && Runs(EMPTY, es)
    requires id in Final(EMPTY, es).timers && Final(EMPTY, es).timers[id].pCb == Some(cb)
    ensures Kept(Final(EMPTY, es), id, cb)
    ensures id in Final(EMPTY, es).heap || id in InFlight(Final(EMPTY, es).queues) ==> Running(Final(EMPTY, es), id, cb)
  {
    KeptAlong(EMPTY, es);
    assert TimerOk(Final(EMPTY, es), id);
  }

  // So from any state the service reaches: the callback of a timer that is not cancelled,
  // deleted or scheduled anew runs once per message, and is freed with it at the last.
  lemma ReachedRun(before: seq<Event>, es: seq<Event>, id: nat, cb: nat)
    requires Inv(EMPTY) && Runs(EMPTY, before) && Runs(Final(EMPTY, before), es)
    requires id in Final(EMPTY, before).timers && Final(EMPTY, before).timers[id].pCb == Some(cb)
    requires forall e | e in es :: !Alters(e, id)
    ensures var w := Final(EMPTY, before);
            FullLife(w, Final(w, es), Trace(w, es), id, cb)
  {
    ReachedIsKept(before, id, cb);
    KeptRun(Final(EMPTY, before), es, id, cb);
  }

  // A periodic timer with limit N in 1 .. 2^32 - 2, neither cancelled nor deleted, but stopped
  // and restarted at will, runs its callback once per delivered message, N + 1 times in all,
  // and is freed with its callback exactly when the (N + 1)st message is delivered.
  lemma PeriodicRunsOneMore(w: World, e: Event, es: seq<Event>)
    requires Inv(w) && Enabled(w, e) && e.Schedule? && e.args.kind == Periodic
    requires 0 < e.args.howMany < TWO_32 - 1
    requires Runs(Next(w, e), es) && forall x | x in es :: !Alters(x, e.id)
    ensures var tr, cb := Trace(Next(w, e), es), CallbackOf(w, e);
            var d := multiset(tr)[Triggered(e.id, cb)];
            var freed := if d == e.args.howMany + 1 then 1 else 0;
            && d == Deliveries(tr, e.id) <= e.args.howMany + 1
            && multiset(tr)[FreedTimer(e.id)] == multiset(tr)[FreedCallback(cb)] == freed
            && (e.id in Final(Next(w, e), es).timers <==> d <= e.args.howMany)
  {
    ScheduledRuns(w, e);
    KeptRun(Next(w, e), es, e.id, CallbackOf(w, e));
  }

  // A periodic timer with limit 0, and one with limit 2^32 - 1, is never freed.
  lemma PeriodicWithoutLimit(w: World, e: Event, es: seq<Event>)
    requires Inv(w) && Enabled(w, e) && e.Schedule? && e.args.kind == Periodic
    requires e.args.howMany == 0 || e.args.howMany == TWO_32 - 1
    requires Runs(Next(w, e), es) && forall x | x in es :: !Alters(x, e.id)
    ensures var tr, cb := Trace(Next(w, e), es), CallbackOf(w, e);
            && multiset(tr)[Triggered(e.id, cb)] == Deliveries(tr, e.id)
            && multiset(tr)[FreedTimer(e.id)] == multiset(tr)[FreedCallback(cb)] == 0
            && e.id in Final(Next(w, e), es).timers
  {
    ScheduledRuns(w, e);
    KeptRun(Next(w, e), es, e.id, CallbackOf(w, e));
  }

  // A one-shot runs its callback exactly once, and is freed with it right then.
  lemma OneShotRunsOnce(w: World, e: Event, es: seq<Event>)
    requires Inv(w) && Enabled(w, e) && e.Schedule? && e.args.kind == OneShot
    requires Runs(Next(w, e), es) && forall x | x in es :: !Alters(x, e.id)
    ensures var tr, cb := Trace(Next(w, e), es), CallbackOf(w, e);
            var d := multiset(tr)[Triggered(e.id, cb)];
            && d == Deliveries(tr, e.id) <= 1
            && multiset(tr)[FreedTimer(e.id)] == multiset(tr)[FreedCallback(cb)] == d
            && (e.id in Final(Next(w, e), es).timers <==> d == 0)
  {
    ScheduledRuns(w, e);
    KeptRun(Next(w, e), es, e.id, CallbackOf(w, e));
  }

  // ---------- When it fires ----------

  /** The clock readings at which the timer fires. */
  function FireTimes(tr: seq<Obs>, id: nat): seq<nat> {
    if tr == [] then []
    else (if tr[0].Fired? && tr[0].id == id then [tr[0].at] else []) + FireTimes(tr[1..], id)
  }

  lemma {:induction false} FireTimesConcat(a: seq<Obs>, b: seq<Obs>, id: nat)
    ensures FireTimes(a + b, id) == FireTimes(a, id) + FireTimes(b, id)
  {
    if a == [] {
      assert a + b == b;
    } else {
      assert (a + b)[1..] == a[1..] + b;
      FireTimesConcat(a[1..], b, id);
    }
  }

  lemma {:induction false} NotFired(tr: seq<Obs>, id: nat)
    requires forall o | o in tr && o.Fired? :: o.id != id
    ensures FireTimes(tr, id) == []
  {
    if tr != [] {
      NotFired(tr[1..], id);
    }
  }

  ghost predicate Spaced(ts: seq<nat>, gap: nat) {
    forall k: nat | k + 1 < |ts| :: ts[k] + gap <= ts[k + 1]
  }

  /** A count of firings, in 32 bits, after some more. */
  function Counted(fired: nat, more: nat): nat {
    (fired + more) % TWO_32
  }

  lemma CountedTwice(fired: nat, a: nat, b: nat)
    ensures Counted(Counted(fired, a), b) == Counted(fired, a + b)
  {
    assert fired + a + b == (fired + a) / TWO_32 * TWO_32 + ((fired + a) % TWO_32 + b);
  }

  /** A step from w to w' with firings ts counts them. */
  predicate Counts(w: World, w': World, ts: seq<nat>, id: nat) {
    && |ts| <= 1
    && (id in w.timers && id in w'.timers ==>
          w'.timers[id].fired == if ts == [] then w.timers[id].fired else Counted(w.timers[id].fired, 1))
  }

  lemma IterationCounts(w: World, w': World, o: seq<Obs>, top: nat)
    requires |w.queues| == |w'.queues| == MAX_TASKS && top in w.timers && Iterates(w, w', o, top)
    ensures Counts(w, w', FireTimes(o, top), top)
  {
    if o != [] {
      assert o[1..] == [];
    }
  }

  lemma DeliveryCounts(w: World, w': World, o: seq<Obs>, id: nat, q: nat)
    requires |w.queues| == |w'.queues| == MAX_TASKS && id in w.timers && Delivers(w, w', o, id, q)
    ensures Counts(w, w', FireTimes(o, id), id)
  {
    NotFired(o, id);
  }

  lemma PauseCounts(w: World, e: Event)
    requires Inv(w) && Enabled(w, e) && (e.Stop? || e.Restart?)
    ensures Counts(w, Next(w, e), FireTimes(Observe(w, e), e.id), e.id)
  {
    assert Observe(w, e) == [];
  }

  lemma StepCounts(w: World, e: Event, id: nat, cb: nat)
    requires Inv(w) && Enabled(w, e) && Kept(w, id, cb) && !Alters(e, id)
    ensures Counts(w, Next(w, e), FireTimes(Observe(w, e), id), id)
  {
    if Subject(w, e) != Some(id) {
      OthersUntouched(w, e, id);
      OthersSilent(w, e, id);
      NotFired(Observe(w, e), id);
    } else if e.Iterate? {
      IterateEffect(w, e);
      IterationCounts(w, Next(w, e), Observe(w, e), id);
    } else if e.Deliver? {
      DeliverEffect(w, e);
      DeliveryCounts(w, Next(w, e), Observe(w, e), id, e.queue);
    } else {
      PauseCounts(w, e);
    }
  }

  lemma CountMore(w: World, w1: World, w2: World, a: seq<nat>, b: seq<nat>, id: nat)
    requires id in w.timers && id in w1.timers && id in w2.timers && Counts(w, w1, a, id)
    requires w.timers[id].fired < TWO_32 && w2.timers[id].fired == Counted(w1.timers[id].fired, |b|)
    ensures w2.timers[id].fired == Counted(w.timers[id].fired, |a + b|)
  {
    if a != [] {
      CountedTwice(w.timers[id].fired, 1, |b|);
    }
  }

  // However often it is stopped and restarted, a timer counts its firings, modulo 2^32.
  lemma {:induction false} FiringsCounted(w: World, es: seq<Event>, id: nat, cb: nat)
    requires Inv(w) && Runs(w, es) && Kept(w, id, cb) && id in Final(w, es).timers
    requires forall e | e in es :: !Alters(e, id)
    ensures Final(w, es).timers[id].fired == Counted(w.timers[id].fired, |FireTimes(Trace(w, es), id)|)
    decreases es
  {
    assert TimerOk(w, id);
    if es != [] {
      var w' := Next(w, es[0]);
      var a, b := Observe(w, es[0]), Trace(w', es[1..]);
      KeptStep(w, es[0], id, cb);
      if id !in w'.timers {
        FreedSilent(w', es[1..], id);
      } else {
        StepCounts(w, es[0], id, cb);
        FiringsCounted(w', es[1..], id, cb);
        FireTimesConcat(a, b, id);
        CountMore(w, w', Final(w, es), FireTimes(a, id), FireTimes(b, id), id);
      }
    }
  }

  /** The earliest the timer can fire next. */
  function Earliest(w: World, id: nat): nat
    requires id in w.timers
  {
    if id in w.heap then w.timers[id].whenToFire else w.clock + w.timers[id].timeout
  }

  /** A step with firings ts does not bring the next firing forward, and pushes it a timeout
      away when the timer fires. */
  ghost predicate Delays(w: World, w': World, ts: seq<nat>, id: nat)
    requires id in w.timers && id in w'.timers
  {
    if ts == [] then Earliest(w, id) <= Earliest(w', id)
    else && ts == [w.clock] && Earliest(w, id) <= w.clock
         && Earliest(w', id) == w.clock + w.timers[id].timeout
  }

  lemma DeliversDelays(w: World, w': World, o: seq<Obs>, id: nat, q: nat, cb: nat)
    requires |w.queues| == |w'.queues| == MAX_TASKS && Kept(w, id, cb)
    requires Delivers(w, w', o, id, q) && id in w'.timers
    requires w.clock + w.timers[id].timeout < TWO_64
    ensures Delays(w, w', FireTimes(o, id), id)
  {
    NotFired(o, id);
  }

  lemma IteratesDelays(w: World, w': World, o: seq<Obs>, top: nat, cb: nat)
    requires |w.queues| == |w'.queues| == MAX_TASKS && Kept(w, top, cb)
    requires Iterates(w, w', o, top) && top in w'.timers
    ensures Delays(w, w', FireTimes(o, top), top)
  {
  }

  lemma SameDelays(w: World, w': World, id: nat)
    requires |w.queues| == |w'.queues| == MAX_TASKS && id in w.timers
    requires SameTimer(w, w', id) && w.clock <= w'.clock
    ensures id in w'.timers && Delays(w, w', [], id)
  {
  }

  lemma ElsewhereDelays(w: World, e: Event, id: nat, cb: nat)
    requires Inv(w) && Enabled(w, e) && Kept(w, id, cb) && Subject(w, e) != Some(id)
    ensures id in Next(w, e).timers && Delays(w, Next(w, e), FireTimes(Observe(w, e), id), id)
  {
    ReachedTimersAreLive(w, e);
    OthersUntouched(w, e, id);
    OthersSilent(w, e, id);
    NotFired(Observe(w, e), id);
    SameDelays(w, Next(w, e), id);
  }

  /** The timer waits for no longer than its timeout. */
  predicate Paced(w: World, id: nat) {
    id in w.timers && id in w.heap ==> w.timers[id].whenToFire <= w.clock + w.timers[id].timeout
  }

  lemma PauseDelays(w: World, e: Event, cb: nat)
    requires Inv(w) && Enabled(w, e) && (e.Stop? || e.Restart?) && Kept(w, e.id, cb) && Paced(w, e.id)
    requires w.clock + w.timers[e.id].timeout < TWO_64
    ensures Delays(w, Next(w, e), FireTimes(Observe(w, e), e.id), e.id)
  {
    assert TimerOk(w, e.id);
  }

  lemma StaysPaced(w: World, e: Event, id: nat, cb: nat)
    requires Inv(w) && Enabled(w, e) && Kept(w, id, cb) && !Alters(e, id) && Paced(w, id)
    requires id in Next(w, e).timers && w.clock + w.timers[id].timeout < TWO_64
    ensures Paced(Next(w, e), id)
  {
    if Subject(w, e) != Some(id) {
      OthersUntouched(w, e, id);
      ReachedTimersAreLive(w, e);
    } else if e.Iterate? {
      IterateEffect(w, e);
    } else if e.Deliver? {
      DeliverEffect(w, e);
    } else {
      assert TimerOk(w, id);
    }
  }

  lemma EarliestStep(w: World, e: Event, id: nat, cb: nat)
    requires Inv(w) && Enabled(w, e) && Kept(w, id, cb) && !Alters(e, id)
    requires Paced(w, id) || !Disturbs(e, id)
    requires id in Next(w, e).timers && w.clock + w.timers[id].timeout < TWO_64
    ensures Delays(w, Next(w, e), FireTimes(Observe(w, e), id), id)
  {
    if Subject(w, e) != Some(id) {
      ElsewhereDelays(w, e, id, cb);
    } else if e.Iterate? {
      IterateEffect(w, e);
      IteratesDelays(w, Next(w, e), Observe(w, e), id, cb);
    } else if e.Deliver? {
      DeliverEffect(w, e);
      DeliversDelays(w, Next(w, e), Observe(w, e), id, e.queue, cb);
    } else {
      PauseDelays(w, e, cb);
    }
  }

  // Consecutive firings of an unaltered timer are at least its timeout apart, the first one
  // no earlier than its firing time; with stops and restarts in between, if it waits for no
  // longer than its timeout to begin with.
  lemma {:induction false} FiringsSpaced(w: World, es: seq<Event>, id: nat, cb: nat)
    requires Inv(w) && Runs(w, es) && Kept(w, id, cb)
    requires forall e | e in es :: !Alters(e, id)
    requires Paced(w, id) || forall e | e in es :: !Disturbs(e, id)
    requires Final(w, es).clock + w.timers[id].timeout < TWO_64
    ensures var ts := FireTimes(Trace(w, es), id);
            Spaced(ts, w.timers[id].timeout) && (ts == [] || Earliest(w, id) <= ts[0])
    decreases es
  {
    if es != [] {
      var w' := Next(w, es[0]);
      var a, b := Observe(w, es[0]), Trace(w', es[1..]);
      ClockAdvances(w, es);
      KeptStep(w, es[0], id, cb);
      FireTimesConcat(a, b, id);
      if id in w'.timers {
        EarliestStep(w, es[0], id, cb);
        if Paced(w, id) {
          StaysPaced(w, es[0], id, cb);
        }
        FiringsSpaced(w', es[1..], id, cb);
        SpacedCons(FireTimes(a, id), FireTimes(b, id), w.timers[id].timeout);
      } else {
        FreedSilent(w', es[1..], id);
        NotFired(b, id);
        LastDelivery(w, es[0], id, cb);
      }
    }
  }

  lemma LastDelivery(w: World, e: Event, id: nat, cb: nat)
    requires Inv(w) && Enabled(w, e) && Kept(w, id, cb) && !Alters(e, id)
    requires id !in Next(w, e).timers
    ensures FireTimes(Observe(w, e), id) == []
  {
    if Subject(w, e) != Some(id) {
      OthersUntouched(w, e, id);
    } else if e.Iterate? {
      IterateEffect(w, e);
    } else if e.Deliver? {
      DeliverEffect(w, e);
      NotFired(Observe(w, e), id);
    }
  }

  lemma SpacedCons(a: seq<nat>, b: seq<nat>, gap: nat)
    requires |a| <= 1 && Spaced(b, gap)
    requires a != [] && b != [] ==> a[0] + gap <= b[0]
    ensures Spaced(a + b, gap)
  {
  }

  lemma SpacedBounds(ts: seq<nat>, gap: nat, start: nat)
    requires Spaced(ts, gap) && (ts == [] || start + gap <= ts[0])
    ensures forall k: nat | k < |ts| :: start + (k + 1) * gap <= ts[k]
  {
    forall k: nat | k < |ts| ensures start + (k + 1) * gap <= ts[k] {
      SpacedBound(ts, gap, start, k);
    }
  }

  lemma {:induction false} SpacedBound(ts: seq<nat>, gap: nat, start: nat, k: nat)
    requires Spaced(ts, gap) && k < |ts| && start + gap <= ts[0]
    ensures start + (k + 1) * gap <= ts[k]
    decreases k
  {
    if k > 0 {
      SpacedBound(ts, gap, start, k - 1);
    }
  }

  lemma FirstAndSpaced(w: World, id: nat, cb: nat, start: nat, es: seq<Event>)
    requires Inv(w) && Kept(w, id, cb) && Paced(w, id) && Runs(w, es)
    requires forall e | e in es :: !Alters(e, id)
    requires Final(w, es).clock + w.timers[id].timeout < TWO_64
    requires Earliest(w, id) == start + w.timers[id].timeout
    ensures var ts, timeout := FireTimes(Trace(w, es), id), w.timers[id].timeout;
            Spaced(ts, timeout) && forall k: nat | k < |ts| :: start + (k + 1) * timeout <= ts[k]
  {
    FiringsSpaced(w, es, id, cb);
    SpacedBounds(FireTimes(Trace(w, es), id), w.timers[id].timeout, start);
  }

  /** The arguments schedulePeriodicAtTimeout passes on. */
  function PeriodicAtTimeout(timeout: nat, howMany: nat): ScheduleArgs {
    ScheduleArgs(timeout, false, timeout, false, Periodic, howMany, false, 0)
  }

  lemma PeriodicAtTimeoutStart(w: World, id: nat, cb: nat, timeout: nat, howMany: nat)
    requires var e := Schedule(id, cb, PeriodicAtTimeout(timeout, howMany)); Inv(w) && Enabled(w, e)
    requires w.clock + timeout < TWO_64
    ensures var e := Schedule(id, cb, PeriodicAtTimeout(timeout, howMany));
            && Running(Next(w, e), id, CallbackOf(w, e))
            && Next(w, e).timers[id].timeout == timeout
            && Earliest(Next(w, e), id) == w.clock + timeout
            && Paced(Next(w, e), id)
  {
    ScheduledRuns(w, Schedule(id, cb, PeriodicAtTimeout(timeout, howMany)));
  }

  // The k-th firing of a periodic timer is no earlier than k timeouts after it was scheduled,
  // and consecutive firings are at least a timeout apart, however often it is stopped and
  // restarted, as long as clock plus timeout fits in 64 bits.
  lemma PeriodicFiringTimes(w: World, id: nat, cb: nat, timeout: nat, howMany: nat, es: seq<Event>)
    requires var e := Schedule(id, cb, PeriodicAtTimeout(timeout, howMany));
             && Inv(w) && Enabled(w, e) && Runs(Next(w, e), es)
             && Final(Next(w, e), es).clock + timeout < TWO_64
             && forall x | x in es :: !Alters(x, id)
    ensures var ts := FireTimes(Trace(Next(w, Schedule(id, cb, PeriodicAtTimeout(timeout, howMany))), es), id);
            && Spaced(ts, timeout)
            && forall k: nat | k < |ts| :: w.clock + (k + 1) * timeout <= ts[k]
  {
    var e := Schedule(id, cb, PeriodicAtTimeout(timeout, howMany));
    var w' := Next(w, e);
    ClockAdvances(w', es);
    PeriodicAtTimeoutStart(w, id, cb, timeout, howMany);
    FirstAndSpaced(w', id, CallbackOf(w, e), w.clock, es);
  }
}
