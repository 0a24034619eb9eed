/**
 Nothing the other timers do can keep a finite timer from running out: every run that does
 not alter it can be continued, by the clock, the timer task and the callback tasks alone
 once the timer is not stopped, to the point where it has run its last callback and is freed.
 */
module Progress {
  import opened Common
  import opened Protocol
  import opened ProtocolRuns
  import opened Lifetimes
  import opened Backlog

  ghost predicate Unaltered(es: seq<Event>, id: nat) {
    forall e | e in es :: !Alters(e, id)
  }

  ghost predicate Undisturbed(es: seq<Event>, id: nat) {
    forall e | e in es :: !Disturbs(e, id)
  }

  /** The timer is under way as before, with the same number of messages to come. */
  ghost predicate SameCourse(w: World, w': World, id: nat, cb: nat)
    requires |w.queues| == |w'.queues| == MAX_TASKS && id in w.timers
  {
    && Running(w', id, cb)
    && (Finite(w'.timers[id]) <==> Finite(w.timers[id]))
    && (Finite(w.timers[id]) ==> Lifetime(w', id) == Lifetime(w, id))
  }

  // ---------- Until the next delivery ----------

  // Delivering another timer's message from the same queue brings this one forward.
  lemma HeadDelivered(w: World, q: nat, id: nat, cb: nat)
    requires Inv(w) && q < MAX_TASKS && Running(w, id, cb) && id in w.queues[q] && w.queues[q][0] != id
    ensures Enabled(w, Deliver(q)) && SameCourse(w, Next(w, Deliver(q)), id, cb)
    ensures id in Next(w, Deliver(q)).queues[q] && |Next(w, Deliver(q)).queues[q]| < |w.queues[q]|
  {
    var e := Deliver(q);
    ReachedTimersAreLive(w, e);
    RunningStep(w, e, id, cb);
    OthersUntouched(w, e, id);
    OthersSilent(w, e, id);
    DeliverShortens(w, q);
  }

  lemma DeliverShortens(w: World, q: nat)
    requires |w.queues| == MAX_TASKS && q < MAX_TASKS && w.queues[q] != [] && w.queues[q][0] in w.timers
    ensures DeliverFrom(w, q).queues[q] == w.queues[q][1..]
  {
  }

  /** One delivery later: the timer is gone, or under way with fewer messages to come. */
  ghost predicate OneFewer(w: World, w': World, id: nat, cb: nat)
    requires |w.queues| == |w'.queues| == MAX_TASKS && id in w.timers
  {
    id in w'.timers ==>
      && Running(w', id, cb)
      && (Finite(w'.timers[id]) <==> Finite(w.timers[id]))
      && (Finite(w.timers[id]) ==> Lifetime(w', id) < Lifetime(w, id))
  }

  lemma OwnDelivered(w: World, q: nat, cb: nat)
    requires Inv(w) && q < MAX_TASKS && w.queues[q] != [] && Running(w, w.queues[q][0], cb)
    ensures Enabled(w, Deliver(q)) && OneFewer(w, Next(w, Deliver(q)), w.queues[q][0], cb)
  {
    RunningStep(w, Deliver(q), w.queues[q][0], cb);
    DeliverShape(w, Deliver(q));
  }

  lemma {:induction false} UntilDelivered(w: World, q: nat, id: nat, cb: nat) returns (es: seq<Event>)
    requires Inv(w) && q < MAX_TASKS && Running(w, id, cb) && id in w.queues[q]
    ensures Runs(w, es) && Undisturbed(es, id)
    ensures OneFewer(w, Final(w, es), id, cb)
    ensures Deliveries(Trace(w, es), id) >= 1
    decreases |w.queues[q]|
  {
    var rest := [];
    if w.queues[q][0] == id {
      OwnDelivered(w, q, cb);
      DeliverShape(w, Deliver(q));
    } else {
      HeadDelivered(w, q, id, cb);
      rest := UntilDelivered(Next(w, Deliver(q)), q, id, cb);
    }
    RunsCons(w, Deliver(q), rest);
    DeliveriesConcat(Observe(w, Deliver(q)), Trace(Next(w, Deliver(q)), rest), id);
    es := [Deliver(q)] + rest;
  }

  // ---------- Until the next firing ----------

  lemma IterationKeeps(w: World, e: Event, id: nat, cb: nat)
    requires Inv(w) && Enabled(w, e) && Iteration(w, e) && Running(w, id, cb)
    ensures SameCourse(w, Next(w, e), id, cb) && Next(w, e).clock == w.clock
    ensures id in Next(w, e).heap ==> id in w.heap && Next(w, e).timers[id].whenToFire == w.timers[id].whenToFire
  {
    if Subject(w, e) != Some(id) {
      RunningStep(w, e, id, cb);
      OthersUntouched(w, e, id);
      OthersSilent(w, e, id);
      if e.Iterate? {
        IterateEffect(w, e);
      }
    } else {
      IterateEffect(w, e);
      IteratesLives(w, Next(w, e), Observe(w, e), id, cb);
      NotDelivered(Observe(w, e), id);
    }
  }

  lemma {:induction false} IterationsKeep(w: World, es: seq<Event>, id: nat, cb: nat)
    requires Inv(w) && Iterations(w, es) && Runs(w, es) && Running(w, id, cb)
    ensures SameCourse(w, Final(w, es), id, cb) && Final(w, es).clock == w.clock
    ensures id in Final(w, es).heap ==> id in w.heap && Final(w, es).timers[id].whenToFire == w.timers[id].whenToFire
    ensures Undisturbed(es, id)
    decreases es
  {
    if es != [] {
      IterationKeeps(w, es[0], id, cb);
      IterationsKeep(Next(w, es[0]), es[1..], id, cb);
    }
  }

  // With the clock at the firing time, clearing the backlog sends the timer on its way.
  lemma DueIsFired(w: World, id: nat, cb: nat) returns (es: seq<Event>)
    requires Inv(w) && Running(w, id, cb) && Due(w, id)
    ensures Runs(w, es) && Undisturbed(es, id)
    ensures SameCourse(w, Final(w, es), id, cb) && id !in Final(w, es).heap
  {
    es := IterateFor(w, 2 * |DueTimers(w)|);
    IterationsRun(w, es);
    BacklogClears(w, es);
    IterationsKeep(w, es, id, cb);
    var w' := Final(w, es);
    if id in w'.heap {
      NotDueNotInHeap(w', id);
    }
  }

  lemma NotDueNotInHeap(w: World, id: nat)
    requires DueTimers(w) == {} && id in w.timers && Due(w, id)
    ensures id !in w.heap
  {
    assert id in w.heap ==> id in DueTimers(w);
  }

  lemma UntilFired(w: World, id: nat, cb: nat) returns (es: seq<Event>)
    requires Inv(w) && Running(w, id, cb)
    ensures Runs(w, es) && Undisturbed(es, id)
    ensures SameCourse(w, Final(w, es), id, cb) && id !in Final(w, es).heap
  {
    var now := if w.timers[id].whenToFire > w.clock then w.timers[id].whenToFire else w.clock;
    var w1 := Next(w, Tick(now));
    assert Running(w1, id, cb);
    var rest := DueIsFired(w1, id, cb);
    RunsCons(w, Tick(now), rest);
    es := [Tick(now)] + rest;
  }

  // ---------- Until the end ----------

  lemma InSomeQueue(w: World, id: nat) returns (q: nat)
    requires |w.queues| == MAX_TASKS && id in InFlight(w.queues)
    ensures q < MAX_TASKS && id in w.queues[q]
  {
    q := if id in multiset(w.queues[0]) then 0 else if id in multiset(w.queues[1]) then 1 else 2;
  }

  lemma {:induction false} CanRunOut(w: World, id: nat, cb: nat) returns (es: seq<Event>)
    requires Inv(w) && Running(w, id, cb) && Finite(w.timers[id])
    ensures Runs(w, es) && Undisturbed(es, id) && id !in Final(w, es).timers
    decreases Lifetime(w, id)
  {
    var a := UntilFired(w, id, cb);
    var w1 := Final(w, a);
    var q := InSomeQueue(w1, id);
    var b := UntilDelivered(w1, q, id, cb);
    var w2 := Final(w1, b);
    RunsConcat(w, a, b);
    es := a + b;
    if id in w2.timers {
      var c := CanRunOut(w2, id, cb);
      RunsConcat(w, a + b, c);
      es := a + b + c;
    }
  }

  lemma {:induction false} StillKept(w: World, es: seq<Event>, id: nat, cb: nat)
    requires Inv(w) && Runs(w, es) && Kept(w, id, cb) && Unaltered(es, id) && id in Final(w, es).timers
    ensures Kept(Final(w, es), id, cb) && (Finite(Final(w, es).timers[id]) <==> Finite(w.timers[id]))
    decreases es
  {
    if es != [] {
      var w' := Next(w, es[0]);
      KeptStep(w, es[0], id, cb);
      if id !in w'.timers {
        FreedSilent(w', es[1..], id);
      } else {
        StillKept(w', es[1..], id, cb);
      }
    }
  }

  // A stopped timer is restarted; one under way is left alone.
  lemma Resume(w: World, id: nat, cb: nat) returns (es: seq<Event>)
    requires Inv(w) && Kept(w, id, cb)
    ensures Runs(w, es) && Unaltered(es, id) && es == if Places(w, id) == 1 then [] else [Restart(id)]
    ensures Running(Final(w, es), id, cb) && (Finite(Final(w, es).timers[id]) <==> Finite(w.timers[id]))
  {
    es := [];
    if Places(w, id) != 1 {
      assert TimerOk(w, id);
      PauseLives(w, Restart(id), cb);
      OneStep(w, Restart(id));
      es := [Restart(id)];
    }
  }

  // A stopped timer is restarted, and then runs out.
  lemma CanRunOutAfterPause(w: World, id: nat, cb: nat) returns (es: seq<Event>)
    requires Inv(w) && Kept(w, id, cb) && Finite(w.timers[id])
    ensures Runs(w, es) && Unaltered(es, id) && id !in Final(w, es).timers
    ensures Places(w, id) == 1 ==> Undisturbed(es, id)
  {
    var a := Resume(w, id, cb);
    var b := CanRunOut(Final(w, a), id, cb);
    RunsConcat(w, a, b);
    es := a + b;
  }

  // Every run that does not alter a finite timer, and has not yet freed it, can be continued
  // to one that does. The timer itself is not touched, but for a restart if it is stopped.
  lemma FiniteRunsOut(w: World, e: Event, es: seq<Event>) returns (more: seq<Event>)
    requires Inv(w) && Enabled(w, e) && e.Schedule? && Finite(Next(w, e).timers[e.id])
    requires Runs(Next(w, e), es) && Unaltered(es, e.id) && e.id in Final(Next(w, e), es).timers
    ensures var w' := Next(w, e);
            && Runs(w', es + more) && Unaltered(es + more, e.id)
            && (Places(Final(w', es), e.id) == 1 ==> Undisturbed(more, e.id))
            && e.id !in Final(w', es + more).timers
  {
    var w', cb := Next(w, e), CallbackOf(w, e);
    ScheduledRuns(w, e);
    StillKept(w', es, e.id, cb);
    more := CanRunOutAfterPause(Final(w', es), e.id, cb);
    RunsConcat(w', es, more);
  }

  // For a periodic timer with limit N in 1 .. 2^32 - 2 its callback has then run N + 1 times.
  lemma PeriodicRunsOut(w: World, e: Event, es: seq<Event>) returns (more: seq<Event>)
    requires Inv(w) && Enabled(w, e) && e.Schedule? && e.args.kind == Periodic
    requires 0 < e.args.howMany < TWO_32 - 1
    requires Runs(Next(w, e), es) && Unaltered(es, e.id) && e.id in Final(Next(w, e), es).timers
    ensures var w' := Next(w, e);
            && Runs(w', es + more) && Unaltered(es + more, e.id)
            && (Places(Final(w', es), e.id) == 1 ==> Undisturbed(more, e.id))
            && e.id !in Final(w', es + more).timers
            && multiset(Trace(w', es + more))[Triggered(e.id, CallbackOf(w, e))] == e.args.howMany + 1
  {
    ScheduledRuns(w, e);
    more := FiniteRunsOut(w, e, es);
    PeriodicRunsOneMore(w, e, es + more);
  }

  // And for a one-shot, once.
  lemma OneShotRunsOut(w: World, e: Event, es: seq<Event>) returns (more: seq<Event>)
    requires Inv(w) && Enabled(w, e) && e.Schedule? && e.args.kind == OneShot
    requires Runs(Next(w, e), es) && Unaltered(es, e.id) && e.id in Final(Next(w, e), es).timers
    ensures var w' := Next(w, e);
            && Runs(w', es + more) && Unaltered(es + more, e.id)
            && (Places(Final(w', es), e.id) == 1 ==> Undisturbed(more, e.id))
            && e.id !in Final(w', es + more).timers
            && multiset(Trace(w', es + more))[Triggered(e.id, CallbackOf(w, e))] == 1
  {
    ScheduledRuns(w, e);
    more := FiniteRunsOut(w, e, es);
    OneShotRunsOnce(w, e, es + more);
  }

  // ---------- Without an end ----------

  // A timer without a limit can always be brought to run its callback once more.
  lemma RunsAgain(w: World, id: nat, cb: nat) returns (es: seq<Event>)
    requires Inv(w) && Running(w, id, cb) && !Finite(w.timers[id])
    ensures Runs(w, es) && Undisturbed(es, id)
    ensures Running(Final(w, es), id, cb) && !Finite(Final(w, es).timers[id])
    ensures multiset(Trace(w, es))[Triggered(id, cb)] >= 1
  {
    var a := UntilFired(w, id, cb);
    var w1 := Final(w, a);
    var q := InSomeQueue(w1, id);
    var b := UntilDelivered(w1, q, id, cb);
    RunsConcat(w, a, b);
    es := a + b;
    KeptRun(w, es, id, cb);
    DeliveriesConcat(Trace(w, a), Trace(w1, b), id);
  }

  lemma {:induction false} RunsOften(w: World, id: nat, cb: nat, n: nat) returns (es: seq<Event>)
    requires Inv(w) && Running(w, id, cb) && !Finite(w.timers[id])
    ensures Runs(w, es) && Undisturbed(es, id)
    ensures multiset(Trace(w, es))[Triggered(id, cb)] >= n
    decreases n
  {
    es := [];
    if n > 0 {
      var a := RunsAgain(w, id, cb);
      var b := RunsOften(Final(w, a), id, cb, n - 1);
      RunsConcat(w, a, b);
      es := a + b;
      assert multiset(Trace(w, es)) == multiset(Trace(w, a)) + multiset(Trace(Final(w, a), b));
    }
  }

  // A periodic timer with limit 0 or 2^32 - 1 never ends: every run that does not alter it can
  // be continued, without touching it but for a restart if it is stopped, until its callback
  // has run any number of times.
  lemma PeriodicNeverEnds(w: World, e: Event, es: seq<Event>, n: nat) returns (more: seq<Event>)
    requires Inv(w) && Enabled(w, e) && e.Schedule? && e.args.kind == Periodic
    requires e.args.howMany == 0 || e.args.howMany == TWO_32 - 1
    requires Runs(Next(w, e), es) && Unaltered(es, e.id)
    ensures var w' := Next(w, e);
            && Runs(w', es + more) && Unaltered(es + more, e.id)
            && e.id in Final(w', es).timers
            && (Places(Final(w', es), e.id) == 1 ==> Undisturbed(more, e.id))
            && multiset(Trace(w', es + more))[Triggered(e.id, CallbackOf(w, e))] >= n
  {
    var w', cb := Next(w, e), CallbackOf(w, e);
    PeriodicWithoutLimit(w, e, es);
    ScheduledRuns(w, e);
    StillKept(w', es, e.id, cb);
    var w1 := Final(w', es);
    var a := Resume(w1, e.id, cb);
    var b := RunsOften(Final(w1, a), e.id, cb, n);
    RunsConcat(w1, a, b);
    more := a + b;
    RunsConcat(w', es, more);
    MoreSeen(Trace(w', es), Trace(w1, a), Trace(Final(w1, a), b), Triggered(e.id, cb), n);
  }

  lemma MoreSeen(a: seq<Obs>, b: seq<Obs>, c: seq<Obs>, o: Obs, n: nat)
    requires multiset(c)[o] >= n
    ensures multiset(a + (b + c))[o] >= n
  {
    assert multiset(a + (b + c)) == multiset(a) + multiset(b) + multiset(c);
  }
}
