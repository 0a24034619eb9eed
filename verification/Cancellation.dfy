/**
 A cancelled timer does not linger: it can always be brought, by the clock, the timer task
 and the callback tasks alone, to rest outside heap and queues, its callback never run.
 */
module Cancellation {
  import opened Common
  import opened Protocol
  import opened ProtocolRuns
  import opened Lifetimes
  import opened Backlog
  import opened Progress
  import opened TimerUtils

  /** The timer is cancelled and live, and is as often in heap and queues as it was in w. */
  ghost predicate Lingers(w: World, w': World, id: nat)
    requires |w.queues| == |w'.queues| == MAX_TASKS
  {
    id in w'.timers && Cancelled(w', id) && Places(w', id) == Places(w, id)
  }

  /** While it stays in the heap, a cancelled timer is at most re-armed, once. */
  ghost predicate AtMostRearmed(w: World, w': World, id: nat)
    requires id in w.timers && id in w'.timers
  {
    id in w'.heap ==>
      && id in w.heap
      && (w'.timers[id] == w.timers[id] || (w.timers[id].state == Idle && w'.timers[id].state == Active))
  }

  lemma IterationLingers(w: World, e: Event, id: nat)
    requires Inv(w) && Enabled(w, e) && Iteration(w, e) && id in w.timers && Cancelled(w, id)
    ensures Lingers(w, Next(w, e), id) && AtMostRearmed(w, Next(w, e), id)
    ensures Next(w, e).clock == w.clock
  {
    if e.Iterate? {
      IterateEffect(w, e);
    }
    if Subject(w, e) != Some(id) {
      OthersUntouched(w, e, id);
    } else {
      CancelledIteration(w, e);
    }
  }

  lemma {:induction false} IterationsLinger(w: World, es: seq<Event>, id: nat)
    requires Inv(w) && Iterations(w, es) && Runs(w, es) && id in w.timers && Cancelled(w, id)
    ensures Lingers(w, Final(w, es), id) && AtMostRearmed(w, Final(w, es), id)
    ensures Undisturbed(es, id)
    decreases es
  {
    if es != [] {
      IterationLingers(w, es[0], id);
      IterationsLinger(Next(w, es[0]), es[1..], id);
    }
  }

  // With the clock at the firing time, clearing the backlog takes the timer out of the heap,
  // or re-arms it, if it was Idle.
  lemma ClearedOrRearmed(w: World, id: nat) returns (es: seq<Event>)
    requires Inv(w) && id in w.timers && Cancelled(w, id) && Due(w, id)
    ensures Runs(w, es) && Undisturbed(es, id) && Lingers(w, Final(w, es), id)
    ensures id in Final(w, es).heap ==> w.timers[id].state == Idle && Final(w, es).timers[id].state == Active
  {
    es := IterateFor(w, 2 * |DueTimers(w)|);
    IterationsRun(w, es);
    BacklogClears(w, es);
    IterationsLinger(w, es, id);
    ClockStands(w, es);
    var w' := Final(w, es);
    if id in w'.heap && Due(w', id) {
      NotDueNotInHeap(w', id);
    }
  }

  lemma {:induction false} ClockStands(w: World, es: seq<Event>)
    requires Inv(w) && Iterations(w, es) && Runs(w, es)
    ensures Final(w, es).clock == w.clock
    decreases es
  {
    if es != [] {
      if es[0].Iterate? {
        IterateEffect(w, es[0]);
      }
      ClockStands(Next(w, es[0]), es[1..]);
    }
  }

  lemma WaitAndClear(w: World, id: nat) returns (es: seq<Event>)
    requires Inv(w) && id in w.timers && Cancelled(w, id)
    ensures Runs(w, es) && Undisturbed(es, id) && Lingers(w, Final(w, es), id)
    ensures id in Final(w, es).heap ==> w.timers[id].state == Idle && Final(w, es).timers[id].state == Active
  {
    var now := if w.timers[id].whenToFire > w.clock then w.timers[id].whenToFire else w.clock;
    var w1 := Next(w, Tick(now));
    var rest := ClearedOrRearmed(w1, id);
    RunsCons(w, Tick(now), rest);
    es := [Tick(now)] + rest;
  }

  // Twice is enough: an Idle timer is re-armed the first time and taken out the second.
  lemma UntilOut(w: World, id: nat) returns (es: seq<Event>)
    requires Inv(w) && id in w.timers && Cancelled(w, id)
    ensures Runs(w, es) && Undisturbed(es, id) && Lingers(w, Final(w, es), id)
    ensures id !in Final(w, es).heap
  {
    es := WaitAndClear(w, id);
    var w1 := Final(w, es);
    if id in w1.heap {
      var more := WaitAndClear(w1, id);
      RunsConcat(w, es, more);
      es := es + more;
    }
  }

  lemma HeadTaken(w: World, q: nat, id: nat)
    requires Inv(w) && q < MAX_TASKS && id in w.timers && Cancelled(w, id) && id in w.queues[q] && w.queues[q][0] != id
    ensures Enabled(w, Deliver(q)) && Lingers(w, Next(w, Deliver(q)), id)
    ensures id in Next(w, Deliver(q)).queues[q] && |Next(w, Deliver(q)).queues[q]| < |w.queues[q]|
  {
    ReachedTimersAreLive(w, Deliver(q));
    OthersUntouched(w, Deliver(q), id);
    DeliverShortens(w, q);
  }

  lemma {:induction false} UntilTaken(w: World, q: nat, id: nat) returns (es: seq<Event>)
    requires Inv(w) && q < MAX_TASKS && id in w.timers && Cancelled(w, id) && id in w.queues[q]
    ensures Runs(w, es) && Undisturbed(es, id) && Places(Final(w, es), id) == 0
    decreases |w.queues[q]|
  {
    var rest := [];
    if w.queues[q][0] == id {
      CancelledDelivery(w, Deliver(q));
      assert TimerOk(w, id);
    } else {
      HeadTaken(w, q, id);
      rest := UntilTaken(Next(w, Deliver(q)), q, id);
    }
    RunsCons(w, Deliver(q), rest);
    es := [Deliver(q)] + rest;
  }

  // From any state in which the timer is cancelled there is a run that does not touch it and
  // brings it out of heap and queues, with one message delivered if it was in either, and
  // its callback not run.
  lemma CancelledComesToRest(w: World, id: nat) returns (es: seq<Event>)
    requires Inv(w) && id in w.timers && Cancelled(w, id)
    ensures Runs(w, es) && Undisturbed(es, id) && Places(Final(w, es), id) == 0
    ensures Deliveries(Trace(w, es), id) == Places(w, id)
    ensures forall o | o in Trace(w, es) && o.Triggered? :: o.id != id
  {
    es := UntilOut(w, id);
    var w1 := Final(w, es);
    if id in InFlight(w1.queues) {
      var q := InSomeQueue(w1, id);
      var more := UntilTaken(w1, q, id);
      RunsConcat(w, es, more);
      es := es + more;
    }
    CancelledRun(w, es, id);
  }

  // ---------- A cancelled timer takes its time ----------

  // An iteration that finds a timer just cancelled fires nothing and sends nothing: when it is
  // due, the timer is put back a timeout later.
  lemma CancelHoldsBack(w: World, id: nat)
    requires Inv(w) && Enabled(w, Cancel(id)) && id in w.heap
    ensures var w1 := Next(w, Cancel(id));
            && id in w1.heap && w1.timers[id].state == Idle && w1.timers[id].pCb == None
            && Enabled(w1, Iterate(id)) && Observe(w1, Iterate(id)) == []
            && var w2 := Next(w1, Iterate(id));
            && w2.queues == w.queues && id in w2.timers
            && w2.timers[id] == if Due(w, id) then Rearmed(w.clock, w1.timers[id]) else w1.timers[id]
  {
    var w1 := Next(w, Cancel(id));
    IterateEffect(w1, Iterate(id));
  }

  function Later(a: nat, b: nat): nat {
    if a < b then b else a
  }

  /** The earliest a cancelled timer in the heap can fire: an Idle one has first to be found
      due, and then to wait for its timeout. */
  function EarliestCancelled(w: World, id: nat): nat
    requires id in w.timers
  {
    var r := w.timers[id];
    if r.state == Idle then Later(r.whenToFire, w.clock) + r.timeout else r.whenToFire
  }

  /** A step from w to w' with firings ts of a cancelled timer: it fires from the heap, not
      before its time, and is then out of the heap for good. */
  ghost predicate FiresLate(w: World, w': World, ts: seq<nat>, id: nat)
    requires id in w.timers && id in w'.timers
  {
    && w'.timers[id].timeout == w.timers[id].timeout
    && if ts == [] then id in w'.heap ==> id in w.heap && EarliestCancelled(w, id) <= EarliestCancelled(w', id)
       else ts == [w.clock] && id in w.heap && EarliestCancelled(w, id) <= w.clock && id !in w'.heap
  }

  lemma IterationFiresLate(w: World, w': World, o: seq<Obs>, id: nat)
    requires |w.queues| == |w'.queues| == MAX_TASKS && id in w.timers && id in w'.timers
    requires Iterates(w, w', o, id) && Cancelled(w, id) && w.clock + w.timers[id].timeout < TWO_64
    ensures FiresLate(w, w', FireTimes(o, id), id)
  {
    TimeoutExact(w.clock, w.timers[id].timeout);
    if o != [] {
      assert o[1..] == [];
    }
  }

  lemma StepFiresLate(w: World, e: Event, id: nat)
    requires Inv(w) && Enabled(w, e) && id in w.timers && Cancelled(w, id) && !Disturbs(e, id)
    requires w.clock + w.timers[id].timeout < TWO_64
    ensures id in Next(w, e).timers && Cancelled(Next(w, e), id)
    ensures FiresLate(w, Next(w, e), FireTimes(Observe(w, e), id), id)
  {
    if Subject(w, e) != Some(id) {
      OthersUntouched(w, e, id);
      OthersSilent(w, e, id);
      NotFired(Observe(w, e), id);
      OneStep(w, e);
      ClockAdvances(w, [e]);
    } else if e.Iterate? {
      CancelledIteration(w, e);
      IterateEffect(w, e);
      IterationFiresLate(w, Next(w, e), Observe(w, e), id);
    } else {
      CancelledDelivery(w, e);
      DeliverEffect(w, e);
      NotFired(Observe(w, e), id);
    }
  }

  lemma {:induction false} CancelledFiresLate(w: World, es: seq<Event>, id: nat)
    requires Inv(w) && Runs(w, es) && id in w.timers && Cancelled(w, id) && Undisturbed(es, id)
    requires Final(w, es).clock + w.timers[id].timeout < TWO_64
    ensures var ts := FireTimes(Trace(w, es), id);
            && |ts| <= 1 && (id !in w.heap ==> ts == [])
            && forall t | t in ts :: EarliestCancelled(w, id) <= t
    decreases es
  {
    if es != [] {
      var w' := Next(w, es[0]);
      ClockAdvances(w, es);
      StepFiresLate(w, es[0], id);
      CancelledFiresLate(w', es[1..], id);
      FireTimesConcat(Observe(w, es[0]), Trace(w', es[1..]), id);
    }
  }

  // After a cancel of a timer in the heap, its one message is sent no earlier than a timeout
  // after the timer was both due and cancelled.
  lemma CancelDelaysMessage(w: World, id: nat, es: seq<Event>)
    requires Inv(w) && Enabled(w, Cancel(id)) && id in w.heap
    requires Runs(Next(w, Cancel(id)), es) && Undisturbed(es, id)
    requires Final(Next(w, Cancel(id)), es).clock + w.timers[id].timeout < TWO_64
    ensures var ts := FireTimes(Trace(Next(w, Cancel(id)), es), id);
            |ts| <= 1 && forall t | t in ts :: Later(w.timers[id].whenToFire, w.clock) + w.timers[id].timeout <= t
  {
    CancelledFiresLate(Next(w, Cancel(id)), es, id);
  }
}
