/**
 Nothing is lost and nothing is freed behind the application's back: over whole runs, what is
 seen to be deleted is what is gone, and what is not gone is still where it was.
 */
module Accounts {
  import opened Common
  import opened Protocol
  import opened ProtocolRuns
  import opened Lifetimes

  // ---------- Callbacks ----------

  /** The callbacks deleted after a step or run that shows o are those deleted before and those
      seen to be deleted. */
  ghost predicate DeletedSeen(w: World, w': World, o: seq<Obs>) {
    forall cb: nat :: cb in w'.deleted <==> cb in w.deleted || FreedCallback(cb) in o
  }

  lemma OwnedSeen(w: World, id: nat)
    requires id in w.timers
    ensures forall cb: nat :: cb in w.deleted + Owned(w.timers[id]) <==>
              cb in w.deleted || FreedCallback(cb) in ObserveOwned(w.timers[id])
  {
  }

  lemma CallDeletedSeen(w: World, e: Event)
    requires Inv(w) && Enabled(w, e) && (e.Cancel? || e.Delete?)
    ensures DeletedSeen(w, Next(w, e), Observe(w, e))
  {
    OwnedSeen(w, e.id);
  }

  lemma StepDeletedSeen(w: World, e: Event)
    requires Inv(w) && Enabled(w, e)
    ensures DeletedSeen(w, Next(w, e), Observe(w, e))
  {
    if e.Deliver? {
      DeliverEffect(w, e);
      DeliveryDeletedSeen(w, Next(w, e), Observe(w, e), w.queues[e.queue][0], e.queue);
    } else if e.Cancel? || e.Delete? {
      CallDeletedSeen(w, e);
    } else {
      NoCallbacks(w, e);
      assert forall cb: nat :: FreedCallback(cb) !in Observe(w, e);
    }
  }

  lemma DeliveryDeletedSeen(w: World, w': World, o: seq<Obs>, id: nat, q: nat)
    requires |w.queues| == |w'.queues| == MAX_TASKS && id in w.timers && Delivers(w, w', o, id, q)
    requires id in w'.timers ==> w'.deleted == w.deleted
    ensures DeletedSeen(w, w', o)
  {
  }

  // In every run exactly the callbacks seen to be deleted are gone.
  lemma {:induction false} EveryDeletionSeen(w: World, es: seq<Event>)
    requires Inv(w) && Runs(w, es)
    ensures DeletedSeen(w, Final(w, es), Trace(w, es))
    decreases es
  {
    if es != [] {
      StepDeletedSeen(w, es[0]);
      EveryDeletionSeen(Next(w, es[0]), es[1..]);
    }
  }

  lemma StepKeepsCallback(w: World, e: Event, id: nat, cb: nat)
    requires Inv(w) && Enabled(w, e) && Uses(w, id, cb)
    ensures Uses(Next(w, e), id, cb) || cb in Next(w, e).deleted
  {
    if Subject(w, e) != Some(id) {
      OthersUntouched(w, e, id);
    } else if e.Iterate? {
      IterateEffect(w, e);
    } else if e.Deliver? {
      DeliverEffect(w, e);
    }
  }

  // In every run a timer keeps its callback until this is deleted, and it is deleted once, seen
  // to be, and not run afterwards.
  lemma {:induction false} CallbackNotLost(w: World, es: seq<Event>, id: nat, cb: nat)
    requires Inv(w) && Runs(w, es) && Uses(w, id, cb)
    ensures Uses(Final(w, es), id, cb) || cb in Final(w, es).deleted
    ensures cb in Final(w, es).deleted <==> FreedCallback(cb) in Trace(w, es)
    ensures CallbackSafe(Trace(w, es))
    decreases es
  {
    EveryDeletionSeen(w, es);
    CallbacksFreedOnce(w, es);
    assert CallbackLive(w, id);
    if es != [] {
      var w' := Next(w, es[0]);
      StepKeepsCallback(w, es[0], id, cb);
      if Uses(w', id, cb) {
        CallbackNotLost(w', es[1..], id, cb);
      } else {
        EveryDeletionSeen(w', es[1..]);
      }
    }
  }

  // ---------- Timers ----------

  function LiveCount(w: World, id: nat): nat {
    if id in w.timers then 1 else 0
  }

  /** How often the slot is taken from the pool in the run, and how often it is given back. */
  function TimesMade(es: seq<Event>, id: nat): nat {
    if es == [] then 0 else (if es[0].New? && es[0].id == id then 1 else 0) + TimesMade(es[1..], id)
  }

  function TimesFreed(tr: seq<Obs>, id: nat): nat {
    if tr == [] then 0 else (if tr[0] == FreedTimer(id) then 1 else 0) + TimesFreed(tr[1..], id)
  }

  lemma {:induction false} TimesFreedConcat(a: seq<Obs>, b: seq<Obs>, id: nat)
    ensures TimesFreed(a + b, id) == TimesFreed(a, id) + TimesFreed(b, id)
  {
    if a == [] {
      assert a + b == b;
    } else {
      assert (a + b)[1..] == a[1..] + b;
      TimesFreedConcat(a[1..], b, id);
    }
  }

  lemma {:induction false} NotFreed(tr: seq<Obs>, id: nat)
    requires FreedTimer(id) !in tr
    ensures TimesFreed(tr, id) == 0
  {
    if tr != [] {
      NotFreed(tr[1..], id);
    }
  }

  lemma DeleteFrees(w: World, id: nat)
    requires Inv(w) && Enabled(w, Delete(id))
    ensures TimesFreed(Observe(w, Delete(id)), id) == 1 && id !in Next(w, Delete(id)).timers
  {
    var o := ObserveOwned(w.timers[id]);
    NotFreed(o, id);
    TimesFreedConcat(o, [FreedTimer(id)], id);
    assert [FreedTimer(id)][1..] == [];
  }

  lemma DeliveryFrees(w: World, w': World, o: seq<Obs>, id: nat, q: nat)
    requires |w.queues| == |w'.queues| == MAX_TASKS && id in w.timers && Delivers(w, w', o, id, q)
    ensures TimesFreed(o, id) + LiveCount(w', id) == 1
  {
    if id in w'.timers {
      NotFreed(o, id);
    } else {
      NotFreed(o[..3], id);
      assert o == o[..3] + [FreedTimer(id)] && [FreedTimer(id)][1..] == [];
      TimesFreedConcat(o[..3], [FreedTimer(id)], id);
    }
  }

  lemma NothingFreed(w: World, e: Event, id: nat)
    requires Inv(w) && Enabled(w, e) && !e.Deliver? && !(e.Delete? && e.id == id)
    ensures FreedTimer(id) !in Observe(w, e)
    ensures LiveCount(Next(w, e), id) == LiveCount(w, id) + (if e.New? && e.id == id then 1 else 0)
  {
    ReachedTimersAreLive(w, e);
    if Subject(w, e) != Some(id) {
      OthersUntouched(w, e, id);
      OthersSilent(w, e, id);
      assert !(FreedTimer(id) in Observe(w, e)) by {
        assert Mentions(FreedTimer(id), id);
      }
    } else if e.Iterate? {
      IterateEffect(w, e);
    }
  }

  lemma StepBalances(w: World, e: Event, id: nat)
    requires Inv(w) && Enabled(w, e)
    ensures LiveCount(w, id) + (if e.New? && e.id == id then 1 else 0)
            == LiveCount(Next(w, e), id) + TimesFreed(Observe(w, e), id)
  {
    if e.Deliver? && Subject(w, e) == Some(id) {
      DeliverEffect(w, e);
      DeliveryFrees(w, Next(w, e), Observe(w, e), id, e.queue);
    } else if e.Deliver? {
      OthersUntouched(w, e, id);
      OthersSilent(w, e, id);
      assert Mentions(FreedTimer(id), id);
      NotFreed(Observe(w, e), id);
    } else if e.Delete? && e.id == id {
      DeleteFrees(w, id);
    } else {
      NothingFreed(w, e, id);
      NotFreed(Observe(w, e), id);
    }
  }

  // In every run a slot is given back as often as it was taken, but for the timer that lives in
  // it now.
  lemma {:induction false} TimersBalance(w: World, es: seq<Event>, id: nat)
    requires Inv(w) && Runs(w, es)
    ensures LiveCount(w, id) + TimesMade(es, id) == LiveCount(Final(w, es), id) + TimesFreed(Trace(w, es), id)
    decreases es
  {
    if es != [] {
      var w' := Next(w, es[0]);
      StepBalances(w, es[0], id);
      TimersBalance(w', es[1..], id);
      TimesFreedConcat(Observe(w, es[0]), Trace(w', es[1..]), id);
    }
  }
}
