/**
 The order in which timers fire over whole runs, through ticks, deliveries and calls of the
 application: with a least timer at the top of the heap, they fire in nondecreasing order of
 firing time, and every task receives them in that order.
 */
module FiringOrder {
  import opened Common
  import opened Protocol
  import opened ProtocolRuns
  import opened Lifetimes
  import opened TimerUtils

  /** The firing time with which a step puts a timer into the heap, if it does. */
  ghost function Arms(w: World, e: Event): Option<nat>
    requires Inv(w) && Enabled(w, e)
  {
    ReachedTimersAreLive(w, e);
    match e
    case Schedule(id, _, args) => Some(FirstFiring(w.clock, w.timers[id], args))
    case Restart(id) => Some(TimeoutToAbsolute(w.clock, w.timers[id].timeout))
    case Iterate(top) =>
      var r := w.timers[top];
      if Due(w, top) && r.state == Idle then Some(TimeoutToAbsolute(w.clock, r.timeout)) else None
    case Deliver(q) =>
      var r := w.timers[w.queues[q][0]];
      if r.pCb.Some? && Rearms(r) then Some(TimeoutToAbsolute(w.clock, r.timeout)) else None
    case _ => None
  }

  /** The step does not put a timer into the heap with a firing time before low. */
  ghost predicate NotBefore(w: World, e: Event, low: nat)
    requires Inv(w) && Enabled(w, e)
  {
    Arms(w, e).Some? ==> low <= Arms(w, e).value
  }

  /** The firing time of the timer fired last. */
  function LastFired(o: seq<Obs>, low: nat): nat {
    if o != [] && o[0].Fired? then o[0].when else low
  }

  /** No step of the run puts a timer into the heap with a firing time before that of the
      timer fired last; low is that at the start. */
  ghost predicate NeverBefore(w: World, es: seq<Event>, low: nat)
    requires Inv(w) && Runs(w, es)
    decreases es
  {
    es == [] ||
    (NotBefore(w, es[0], low) && NeverBefore(Next(w, es[0]), es[1..], LastFired(Observe(w, es[0]), low)))
  }

  ghost predicate NoneBefore(w: World, low: nat) {
    forall id | id in w.timers && id in w.heap :: low <= w.timers[id].whenToFire
  }

  // A timer in the heap after a step was there before, with the same firing time, or the step
  // has put it there.
  lemma HeapAfter(w: World, e: Event, id: nat)
    requires Inv(w) && Enabled(w, e)
    requires id in Next(w, e).timers && id in Next(w, e).heap
    ensures
      || (id in w.timers && id in w.heap && Next(w, e).timers[id].whenToFire == w.timers[id].whenToFire)
      || (Subject(w, e) == Some(id) && Arms(w, e) == Some(Next(w, e).timers[id].whenToFire))
  {
    ReachedTimersAreLive(w, e);
    if Subject(w, e) != Some(id) {
      OthersUntouched(w, e, id);
    } else if e.Iterate? {
      IterateEffect(w, e);
    } else if e.Deliver? {
      DeliverEffect(w, e);
    } else {
      CallHeapAfter(w, e);
    }
  }

  lemma CallHeapAfter(w: World, e: Event)
    requires Inv(w) && Enabled(w, e)
    requires e.New? || e.Schedule? || e.Cancel? || e.Restart? || e.Stop? || e.Delete?
    requires e.id in Next(w, e).timers && e.id in Next(w, e).heap
    ensures
      || (e.id in w.timers && e.id in w.heap && Next(w, e).timers[e.id].whenToFire == w.timers[e.id].whenToFire)
      || Arms(w, e) == Some(Next(w, e).timers[e.id].whenToFire)
  {
    assert TimerOk(w, e.id);
  }

  // ---------- One step ----------

  /** The firing times, as scheduled, of the timers fired. */
  function Keys(tr: seq<Obs>): seq<nat> {
    if tr == [] then []
    else KeyOf(tr[0]) + Keys(tr[1..])
  }

  function KeyOf(o: Obs): seq<nat> {
    if o.Fired? then [o.when] else []
  }

  lemma KeysCons(o: Obs, rest: seq<Obs>)
    ensures Keys([o] + rest) == KeyOf(o) + Keys(rest)
  {
    assert ([o] + rest)[1..] == rest;
  }

  lemma {:induction false} KeysConcat(a: seq<Obs>, b: seq<Obs>)
    ensures Keys(a + b) == Keys(a) + Keys(b)
  {
    if a == [] {
      assert [] + b == b;
    } else {
      KeysConcat(a[1..], b);
      Uncons(a, b);
      KeysCons(a[0], a[1..] + b);
      Regroup(KeyOf(a[0]), Keys(a[1..]), Keys(b));
    }
  }

  lemma {:induction false} NoKeys(tr: seq<Obs>)
    requires forall o | o in tr :: !o.Fired?
    ensures Keys(tr) == []
  {
    if tr != [] {
      NoKeys(tr[1..]);
    }
  }

  /** A step from w to w' that shows o keeps the order: what fires is no earlier than low, and
      what stays in the heap no earlier than what fired. */
  ghost predicate KeepsOrder(w: World, w': World, o: seq<Obs>, low: nat) {
    var low' := LastFired(o, low);
    && low <= low' <= w'.clock && NoneBefore(w', low')
    && Keys(o) == if o != [] && o[0].Fired? then [o[0].when] else []
  }

  lemma FiringKeepsOrder(w: World, e: Event, low: nat)
    requires Inv(w) && Enabled(w, e) && e.Iterate? && IsTop(w, e.top) && Observe(w, e) != []
    requires NoneBefore(w, low) && low <= w.clock
    ensures KeepsOrder(w, Next(w, e), Observe(w, e), low)
  {
    IterateEffect(w, e);
    assert Observe(w, e)[1..] == [];
  }

  lemma OthersKeepOrder(w: World, e: Event, low: nat)
    requires Inv(w) && Enabled(w, e) && NotBefore(w, e, low) && (e.Iterate? ==> Observe(w, e) == [])
    requires NoneBefore(w, low) && low <= w.clock
    ensures KeepsOrder(w, Next(w, e), Observe(w, e), low)
  {
    var w' := Next(w, e);
    NoFiring(w, e);
    NoKeys(Observe(w, e));
    ClockStep(w, e);
    forall id | id in w'.timers && id in w'.heap ensures low <= w'.timers[id].whenToFire {
      HeapAfter(w, e, id);
    }
  }

  lemma NoFiring(w: World, e: Event)
    requires Inv(w) && Enabled(w, e) && (e.Iterate? ==> Observe(w, e) == [])
    ensures forall o | o in Observe(w, e) :: !o.Fired?
  {
    if e.Deliver? {
      DeliverEffect(w, e);
    } else if !e.Iterate? {
      CallsSendNothing(w, e);
    }
  }

  lemma ClockStep(w: World, e: Event)
    requires Inv(w) && Enabled(w, e)
    ensures w.clock <= Next(w, e).clock
  {
    OneStep(w, e);
    ClockAdvances(w, [e]);
  }

  lemma StepKeepsOrder(w: World, e: Event, low: nat)
    requires Inv(w) && Enabled(w, e) && (e.Iterate? ==> IsTop(w, e.top)) && NotBefore(w, e, low)
    requires NoneBefore(w, low) && low <= w.clock
    ensures KeepsOrder(w, Next(w, e), Observe(w, e), low)
  {
    if e.Iterate? && Observe(w, e) != [] {
      FiringKeepsOrder(w, e, low);
    } else {
      OthersKeepOrder(w, e, low);
    }
  }

  // ---------- Whole runs ----------

  ghost predicate Ascending(ks: seq<nat>, low: nat) {
    && (forall k | k in ks :: low <= k)
    && (forall i, j | 0 <= i < j < |ks| :: ks[i] <= ks[j])
  }

  lemma AscendingCons(a: seq<nat>, b: seq<nat>, low: nat, low': nat)
    requires |a| <= 1 && (forall k | k in a :: low <= k <= low') && low <= low' && Ascending(b, low')
    ensures Ascending(a + b, low)
  {
    forall i, j | 0 <= i < j < |a + b| ensures (a + b)[i] <= (a + b)[j] {
      assert j >= |a| && (a + b)[j] in b;
      if i < |a| {
        assert (a + b)[i] in a;
      }
    }
  }

  // In every run in which the timer task looks at a least timer and no timer is put into the
  // heap before the one fired last, the timers fire in nondecreasing order of firing time,
  // whatever ticks, deliveries and calls come between.
  lemma {:induction false} FiredInOrder(w: World, es: seq<Event>, low: nat)
    requires Inv(w) && Runs(w, es) && OnTop(w, es) && NeverBefore(w, es, low)
    requires NoneBefore(w, low) && low <= w.clock
    ensures Ascending(Keys(Trace(w, es)), low)
    decreases es
  {
    if es != [] {
      var w' := Next(w, es[0]);
      var a, b := Observe(w, es[0]), Trace(w', es[1..]);
      var low' := LastFired(a, low);
      StepKeepsOrder(w, es[0], low);
      FiredInOrder(w', es[1..], low');
      KeysConcat(a, b);
      AscendingCons(Keys(a), Keys(b), low, low');
    }
  }

  // ---------- What the tasks receive ----------

  /** The firings of timers of task q. */
  function FiringsTo(tr: seq<Obs>, q: nat): seq<Obs> {
    if tr == [] then []
    else (if tr[0].Fired? && tr[0].task == q then [tr[0]] else []) + FiringsTo(tr[1..], q)
  }

  ghost predicate InOrder(fs: seq<Obs>, low: nat) {
    && (forall k | 0 <= k < |fs| :: fs[k].Fired? && low <= fs[k].when)
    && (forall i, j | 0 <= i < j < |fs| :: fs[i].when <= fs[j].when)
  }

  /** The messages received are the first of the firings, one for one, and these are in order
      of firing time. */
  ghost predicate ReceivedInOrder(tr: seq<Obs>, q: nat) {
    var fs, ids := FiringsTo(tr, q), DeliveredTo(tr, q);
    && |ids| <= |fs|
    && InOrder(fs, 0)
    && (forall k | 0 <= k < |fs| :: fs[k].task == q && fs[k] in tr)
    && (forall k | 0 <= k < |ids| :: ids[k] == fs[k].id)
  }

  lemma {:induction false} FiringsAre(tr: seq<Obs>, q: nat)
    ensures |FiringsTo(tr, q)| == |FiredTo(tr, q)|
    ensures forall k | 0 <= k < |FiringsTo(tr, q)| ::
              var f := FiringsTo(tr, q)[k]; f.Fired? && f.task == q && f in tr && f.id == FiredTo(tr, q)[k]
  {
    if tr != [] {
      FiringsAre(tr[1..], q);
    }
  }

  lemma InOrderCons(f: Obs, rest: seq<Obs>, low: nat)
    requires f.Fired? && low <= f.when && InOrder(rest, f.when)
    ensures InOrder([f] + rest, low)
  {
    var fs := [f] + rest;
    forall i, j | 0 <= i < j < |fs| ensures fs[i].when <= fs[j].when {
      assert fs[j] == rest[j - 1];
    }
  }

  lemma AscendingTail(k: nat, ks: seq<nat>, low: nat)
    requires Ascending([k] + ks, low)
    ensures low <= k && Ascending(ks, k)
  {
    var all := [k] + ks;
    assert k in all;
    forall i | 0 <= i < |ks| ensures k <= ks[i] {
      assert all[0] <= all[i + 1];
    }
    forall i, j | 0 <= i < j < |ks| ensures ks[i] <= ks[j] {
      assert all[i + 1] <= all[j + 1];
    }
  }

  lemma InOrderFrom(fs: seq<Obs>, low: nat, low': nat)
    requires InOrder(fs, low') && low <= low'
    ensures InOrder(fs, low)
  {
  }

  lemma {:induction false} FiringsAscend(tr: seq<Obs>, q: nat, low: nat)
    requires Ascending(Keys(tr), low)
    ensures InOrder(FiringsTo(tr, q), low)
  {
    if tr != [] {
      var rest := tr[1..];
      if tr[0].Fired? {
        AscendingTail(tr[0].when, Keys(rest), low);
        FiringsAscend(rest, q, tr[0].when);
        if tr[0].task == q {
          InOrderCons(tr[0], FiringsTo(rest, q), low);
        } else {
          InOrderFrom(FiringsTo(rest, q), low, tr[0].when);
        }
      } else {
        assert Keys(tr) == Keys(rest);
        FiringsAscend(rest, q, low);
      }
    }
  }

  // From the start of the service, every task receives the timers fired for it in
  // nondecreasing order of firing time.
  lemma TasksReceiveInOrder(es: seq<Event>, q: nat)
    requires Inv(EMPTY) && Runs(EMPTY, es) && OnTop(EMPTY, es) && NeverBefore(EMPTY, es, 0) && q < MAX_TASKS
    ensures Ascending(Keys(Trace(EMPTY, es)), 0)
    ensures ReceivedInOrder(Trace(EMPTY, es), q)
  {
    var tr := Trace(EMPTY, es);
    FiredInOrder(EMPTY, es, 0);
    FiringsAre(tr, q);
    FiringsAscend(tr, q, 0);
    MessagesFromStart(es, q);
  }

  // ---------- Exactly when ----------

  /** Whatever the timer task may fire next, it is no earlier than low. */
  ghost predicate NextInOrder(w: World, low: nat) {
    forall id | IsTop(w, id) && Due(w, id) && w.timers[id].state == Active :: low <= w.timers[id].whenToFire
  }

  /** At no point of the run can the timer task go on to fire a timer before the last one. */
  ghost predicate StaysInOrder(w: World, es: seq<Event>, low: nat)
    requires Inv(w) && Runs(w, es)
    decreases es
  {
    && NextInOrder(w, low)
    && (es == [] || StaysInOrder(Next(w, es[0]), es[1..], LastFired(Observe(w, es[0]), low)))
  }

  ghost predicate InHeapAt(w: World, id: nat, when: nat) {
    id in w.timers && id in w.heap && w.timers[id].whenToFire == when && w.timers[id].state == Active
  }

  lemma CallArms(w: World, e: Event)
    requires Inv(w) && Enabled(w, e) && (e.Schedule? || e.Restart?)
    ensures Arms(w, e).Some? && InHeapAt(Next(w, e), e.id, Arms(w, e).value) && Observe(w, e) == []
  {
  }

  lemma TaskArms(w: World, e: Event)
    requires Inv(w) && Enabled(w, e) && (e.Iterate? || e.Deliver?) && Arms(w, e).Some?
    ensures Subject(w, e).Some? && InHeapAt(Next(w, e), Subject(w, e).value, Arms(w, e).value)
    ensures forall o | o in Observe(w, e) :: !o.Fired?
  {
    ReachedTimersAreLive(w, e);
    if e.Iterate? {
      IterateEffect(w, e);
    } else {
      DeliverEffect(w, e);
    }
  }

  // What a step arms is in the heap, Active, with just that time, and nothing fires.
  lemma ArmedIsInHeap(w: World, e: Event)
    requires Inv(w) && Enabled(w, e) && Arms(w, e).Some?
    ensures Subject(w, e).Some? && InHeapAt(Next(w, e), Subject(w, e).value, Arms(w, e).value)
    ensures forall low :: LastFired(Observe(w, e), low) == low
  {
    if e.Schedule? || e.Restart? {
      CallArms(w, e);
    } else {
      TaskArms(w, e);
    }
  }

  lemma TooEarlyIsTop(w: World, id: nat, when: nat, low: nat)
    requires InHeapAt(w, id, when) && when < low <= w.clock
    requires forall x | x in w.timers && x in w.heap && x != id :: low <= w.timers[x].whenToFire
    ensures !NextInOrder(w, low)
  {
    assert IsTop(w, id) && Due(w, id);
  }

  // Put into the heap before the last one fired, a timer is due at the top, and next to fire.
  lemma ArmedTooEarly(w: World, e: Event, low: nat)
    requires Inv(w) && Enabled(w, e) && !NotBefore(w, e, low)
    requires NoneBefore(w, low) && low <= w.clock
    ensures !NextInOrder(Next(w, e), LastFired(Observe(w, e), low))
  {
    var id, w' := Subject(w, e).value, Next(w, e);
    ArmedIsInHeap(w, e);
    ClockStep(w, e);
    forall x | x in w'.timers && x in w'.heap && x != id ensures low <= w'.timers[x].whenToFire {
      HeapAfter(w, e, x);
    }
    TooEarlyIsTop(w', id, Arms(w, e).value, low);
  }

  lemma {:induction false} OrderExact(w: World, es: seq<Event>, low: nat)
    requires Inv(w) && Runs(w, es) && OnTop(w, es)
    requires NoneBefore(w, low) && low <= w.clock
    ensures StaysInOrder(w, es, low) <==> NeverBefore(w, es, low)
    decreases es
  {
    if es != [] {
      if NotBefore(w, es[0], low) {
        StepKeepsOrder(w, es[0], low);
        OrderExact(Next(w, es[0]), es[1..], LastFired(Observe(w, es[0]), low));
      } else {
        ArmedTooEarly(w, es[0], low);
      }
    }
  }

  /** The step puts no timer into the heap whose time is already past: no absolute first time
      that has gone by, no fuzzy one that keeps an old time, no sum that wraps around. */
  ghost predicate InTime(w: World, e: Event)
    requires Inv(w) && Enabled(w, e)
  {
    NotBefore(w, e, w.clock)
  }

  ghost predicate AllInTime(w: World, es: seq<Event>)
    requires Inv(w) && Runs(w, es)
    decreases es
  {
    es == [] || (InTime(w, es[0]) && AllInTime(Next(w, es[0]), es[1..]))
  }

  // Nothing armed in the past is enough.
  lemma {:induction false} InTimeIsEnough(w: World, es: seq<Event>, low: nat)
    requires Inv(w) && Runs(w, es) && OnTop(w, es) && AllInTime(w, es)
    requires NoneBefore(w, low) && low <= w.clock
    ensures NeverBefore(w, es, low)
    decreases es
  {
    if es != [] {
      StepKeepsOrder(w, es[0], low);
      InTimeIsEnough(Next(w, es[0]), es[1..], LastFired(Observe(w, es[0]), low));
    }
  }

  // ---------- A run that loses the order ----------

  /** The run from w ends in w', with least timers at the top, and fires timers with keys ks. */
  ghost predicate Leads(w: World, es: seq<Event>, w': World, ks: seq<nat>) {
    Inv(w) && Runs(w, es) && OnTop(w, es) && Final(w, es) == w' && Keys(Trace(w, es)) == ks
  }

  lemma LeadsCons(w: World, e: Event, w1: World, k: seq<nat>, rest: seq<Event>, w': World, ks: seq<nat>)
    requires Steps(w, e, w1, k) && Leads(w1, rest, w', ks)
    ensures Leads(w, [e] + rest, w', k + ks)
  {
    RunsCons(w, e, rest);
    OnTopCons(w, e, rest);
    KeysConcat(Observe(w, e), Trace(w1, rest));
  }

  ghost predicate Steps(w: World, e: Event, w': World, k: seq<nat>) {
    Inv(w) && Enabled(w, e) && (e.Iterate? ==> IsTop(w, e.top)) && Next(w, e) == w' && Keys(Observe(w, e)) == k
  }

  // In five milliseconds; and at time nine, which the code does not look at.
  const SOON := ScheduleArgs(5, false, 0, false, OneShot, 0, false, 0)
  const AT_NINE := ScheduleArgs(9, true, 0, false, OneShot, 0, false, 0)

  function Armed(cb: nat, first: nat): TimerRec {
    TimerRec(OneShot, Active, Some(cb), 0, 0, 0, first, 0, first)
  }

  function Sent(r: TimerRec): TimerRec {
    r.(state := Done, fired := 1)
  }

  // Timers 0 and 1, given by their records, in a world at the given time.
  function Two(r0: TimerRec, r1: TimerRec, heap: multiset<nat>, queue: seq<nat>, now: nat): World {
    World(map[0 := r0, 1 := r1], heap, [queue, [], []], now, {})
  }

  // The only timer in the heap, due and Active, is fired.
  lemma FireStep(w: World, id: nat)
    requires Inv(w) && w.heap == multiset{id} && id in w.timers && Due(w, id) && w.timers[id].state == Active
    ensures Enabled(w, Iterate(id)) && w.timers[id].task < MAX_TASKS
    ensures Steps(w, Iterate(id), FireTop(w, id), [w.timers[id].whenToFire])
  {
    ReachedTimersAreLive(w, Iterate(id));
    IterateEffect(w, Iterate(id));
    assert Observe(w, Iterate(id))[1..] == [];
  }

  const FRESH := FreshRec(0)
  const ONE := World(map[0 := FRESH], multiset{}, [[], [], []], 0, {})
  const TWO := Two(FRESH, FRESH, multiset{}, [], 0)
  const ARMED := Two(Armed(7, 5), FRESH, multiset{0}, [], 0)
  const DUE := Two(Armed(7, 5), FRESH, multiset{0}, [], 5)
  const FIRED := Two(Sent(Armed(7, 5)), FRESH, multiset{}, [0], 5)
  const LATE := Two(Sent(Armed(7, 5)), Armed(8, 0), multiset{1}, [0], 5)
  const BOTH := Two(Sent(Armed(7, 5)), Sent(Armed(8, 0)), multiset{}, [0, 1], 5)

  lemma NewSteps()
    ensures Steps(EMPTY, New(0, 0), ONE, []) && Steps(ONE, New(1, 0), TWO, [])
  {
    EmptyInvariant();
  }

  lemma Sendings()
    ensures FireTop(DUE, 0) == FIRED && FireTop(LATE, 1) == BOTH
  {
    assert DUE.queues[0] + [0] == [0] && LATE.queues[0] + [1] == [0, 1];
    assert FireTop(DUE, 0).timers == FIRED.timers && FireTop(LATE, 1).timers == BOTH.timers;
  }

  lemma SecondFires()
    requires Inv(LATE)
    ensures Leads(LATE, [Iterate(1)], BOTH, [0])
  {
    FireStep(LATE, 1);
    Sendings();
    LeadsNowhere(BOTH);
    LeadsCons(LATE, Iterate(1), BOTH, [0], [], BOTH, []);
  }

  lemma SecondScheduled()
    requires Inv(FIRED)
    ensures !InTime(FIRED, Schedule(1, 8, AT_NINE))
    ensures Leads(FIRED, [Schedule(1, 8, AT_NINE), Iterate(1)], BOTH, [0])
  {
    assert Steps(FIRED, Schedule(1, 8, AT_NINE), LATE, []);
    SecondFires();
    LeadsCons(FIRED, Schedule(1, 8, AT_NINE), LATE, [], [Iterate(1)], BOTH, [0]);
  }

  lemma FirstFires()
    requires Inv(DUE)
    ensures Leads(DUE, [Iterate(0), Schedule(1, 8, AT_NINE), Iterate(1)], BOTH, [5, 0])
  {
    FireStep(DUE, 0);
    Sendings();
    SecondScheduled();
    LeadsCons(DUE, Iterate(0), FIRED, [5], [Schedule(1, 8, AT_NINE), Iterate(1)], BOTH, [0]);
  }

  lemma FirstScheduled()
    requires Inv(TWO)
    ensures Leads(TWO, [Schedule(0, 7, SOON), Tick(5), Iterate(0), Schedule(1, 8, AT_NINE), Iterate(1)], BOTH, [5, 0])
  {
    assert Steps(TWO, Schedule(0, 7, SOON), ARMED, []);
    assert Steps(ARMED, Tick(5), DUE, []);
    FirstFires();
    var es := [Iterate(0), Schedule(1, 8, AT_NINE), Iterate(1)];
    LeadsCons(ARMED, Tick(5), DUE, [], es, BOTH, [5, 0]);
    LeadsCons(TWO, Schedule(0, 7, SOON), ARMED, [], [Tick(5)] + es, BOTH, [5, 0]);
  }

  lemma LeadsNowhere(w: World)
    requires Inv(w)
    ensures Leads(w, [], w, [])
  {
  }

  // Two timers: one fires at its time 5; then the other, asked to fire at time 9, fires with
  // the time 0 that its member `first` holds.
  lemma OrderLost()
    ensures exists es :: Leads(EMPTY, es, BOTH, [5, 0])
  {
    NewSteps();
    FirstScheduled();
    var es := [Schedule(0, 7, SOON), Tick(5), Iterate(0), Schedule(1, 8, AT_NINE), Iterate(1)];
    LeadsCons(ONE, New(1, 0), TWO, [], es, BOTH, [5, 0]);
    LeadsCons(EMPTY, New(0, 0), ONE, [], [New(1, 0)] + es, BOTH, [5, 0]);
  }
}
