/**
 What stop() and restart() promise over whole runs: a stopped timer rests until it is
 started again, and a restarted one fires no earlier than its timeout later.
 */
module Pauses {
  import opened Common
  import opened Protocol
  import opened ProtocolRuns
  import opened Lifetimes

  /** The step puts the timer into the heap from outside. */
  predicate Starts(e: Event, id: nat) {
    (e.Schedule? || e.Restart?) && e.id == id
  }

  predicate Moves(o: Obs, id: nat) {
    (o.Fired? || o.Delivered? || o.Triggered?) && o.id == id
  }

  lemma RestingCall(w: World, e: Event)
    requires Inv(w) && Enabled(w, e) && (e.New? || e.Cancel? || e.Stop? || e.Delete?)
    requires Places(w, e.id) == 0
    ensures Places(Next(w, e), e.id) == 0
    ensures forall o | o in Observe(w, e) :: !Moves(o, e.id)
  {
  }

  lemma SilentRests(w: World, w': World, o: seq<Obs>, id: nat)
    requires |w.queues| == |w'.queues| == MAX_TASKS && SameTimer(w, w', id) && Places(w, id) == 0
    requires forall x | x in o :: !Mentions(x, id)
    ensures Places(w', id) == 0
    ensures forall x | x in o :: !Moves(x, id)
  {
    forall x | x in o ensures !Moves(x, id) {
      assert !Mentions(x, id);
    }
  }

  lemma RestingStep(w: World, e: Event, id: nat)
    requires Inv(w) && Enabled(w, e) && Places(w, id) == 0 && !Starts(e, id)
    ensures Places(Next(w, e), id) == 0
    ensures forall o | o in Observe(w, e) :: !Moves(o, id)
  {
    if Subject(w, e) != Some(id) {
      OthersUntouched(w, e, id);
      OthersSilent(w, e, id);
      SilentRests(w, Next(w, e), Observe(w, e), id);
    } else if e.Deliver? {
      DeliverShape(w, e);
    } else if !e.Iterate? {
      RestingCall(w, e);
    }
  }

  // A timer in neither heap nor queue stays there, without a firing, a message or a
  // callback, as long as nobody schedules or restarts it.
  lemma {:induction false} RestingRun(w: World, es: seq<Event>, id: nat)
    requires Inv(w) && Runs(w, es) && Places(w, id) == 0
    requires forall e | e in es :: !Starts(e, id)
    ensures Places(Final(w, es), id) == 0
    ensures forall o | o in Trace(w, es) :: !Moves(o, id)
    decreases es
  {
    if es != [] {
      RestingStep(w, es[0], id);
      RestingRun(Next(w, es[0]), es[1..], id);
    }
  }

  // A stop takes the timer out of the heap at once and for as long as it is not started
  // again, and so does a delete.
  lemma StopRests(w: World, e: Event, es: seq<Event>)
    requires Inv(w) && Enabled(w, e) && (e.Stop? || e.Delete?) && Runs(Next(w, e), es)
    requires forall x | x in es :: !Starts(x, e.id)
    ensures Places(Final(Next(w, e), es), e.id) == 0
    ensures forall o | o in Trace(Next(w, e), es) :: !Moves(o, e.id)
  {
    assert TimerOk(w, e.id);
    assert Places(Next(w, e), e.id) == 0;
    RestingRun(Next(w, e), es, e.id);
  }

  lemma RestartEffect(w: World, id: nat, cb: nat)
    requires Inv(w) && Enabled(w, Restart(id)) && Kept(w, id, cb)
    ensures var w' := Next(w, Restart(id));
            && Running(w', id, cb) && w'.clock == w.clock
            && w'.timers[id].timeout == w.timers[id].timeout
            && (w.clock + w.timers[id].timeout < TWO_64 ==>
                  Paced(w', id) && Earliest(w', id) == w.clock + w.timers[id].timeout)
  {
    PauseLives(w, Restart(id), cb);
  }

  // A restart gives a timer a whole timeout again, whether it was running or stopped: what
  // follows has no firing before that, and firings at least a timeout apart.
  lemma RestartDelays(w: World, id: nat, cb: nat, es: seq<Event>)
    requires Inv(w) && Enabled(w, Restart(id)) && Kept(w, id, cb) && Runs(Next(w, Restart(id)), es)
    requires forall e | e in es :: !Alters(e, id)
    requires Final(Next(w, Restart(id)), es).clock + w.timers[id].timeout < TWO_64
    ensures var ts, timeout := FireTimes(Trace(Next(w, Restart(id)), es), id), w.timers[id].timeout;
            && Spaced(ts, timeout)
            && forall k: nat | k < |ts| :: w.clock + (k + 1) * timeout <= ts[k]
  {
    ClockAdvances(Next(w, Restart(id)), es);
    RestartEffect(w, id, cb);
    FirstAndSpaced(Next(w, Restart(id)), id, cb, w.clock, es);
  }
}
