/**
 A run of the code as written, within the discipline, in which a timer is stopped and its
 callback runs all the same: four timers due at once, of which the one in the last slot of
 the heap is stopped.
 */
module MissedStop {
  import opened Common
  import opened HeapOrder
  import opened HeapSearch
  import opened Protocol
  import opened ProtocolRuns
  import WH = WrittenHeap
  import opened WrittenEngine

  // A one-shot due at once.
  const AT_ONCE := ScheduleArgs(0, false, 0, false, OneShot, 0, false, 0)

  function Zero(ids: seq<nat>): (s: seq<Entry<nat>>)
    ensures |s| == |ids| && forall i | 0 <= i < |s| :: s[i] == Entry(ids[i], 0)
  {
    seq(|ids|, i requires 0 <= i < |ids| => Entry(ids[i], 0))
  }

  /** At time 0, with the given timers and queues, and the timers ids in the heap, in this
      order, all with firing time 0. */
  ghost predicate At(m: Machine, ids: seq<nat>, ts: map<nat, TimerRec>, qs: seq<seq<nat>>) {
    && WH.ArrayOk(m.a) && |m.a.slots| == MAX_NUMBER_OF_TIMERS && m.a.entries == Zero(ids)
    && |qs| == MAX_TASKS && m.w == World(ts, multiset(ids), qs, 0, {})
  }

  lemma TimersOfZero(ids: seq<nat>)
    ensures WH.Timers(Zero(ids)) == ids
  {
  }

  lemma Added(a: WH.HeapArray<nat>, ids: seq<nat>, id: nat, ids': seq<nat>)
    requires WH.ArrayOk(a) && a.entries == Zero(ids) && |ids| < |a.slots|
    requires Insert(Zero(ids), Entry(id, 0)) == Zero(ids')
    ensures var r := SetAndAdded(a, Some(Entry(id, 0)));
            r.Some? && r.value.entries == Zero(ids') && WH.Bag(r.value) == multiset(ids')
  {
    assert WH.Rekeyed(a.entries, id, 0) == a.entries;
    TimersOfZero(ids');
  }

  lemma TopRemoved(a: WH.HeapArray<nat>, ids: seq<nat>, ids': seq<nat>)
    requires WH.ArrayOk(a) && a.entries == Zero(ids) && |ids| > 0
    requires RemoveWritten(Zero(ids), 0) == Zero(ids')
    ensures var r := Removed(a, Some(ids[0]));
            r.Some? && r.value.entries == Zero(ids') && WH.Bag(r.value) == multiset(ids')
  {
    assert a.slots[0] == ids[0];
    assert Examine(a.slots, |a.entries|, ids[0], 0) == Some(0);
    assert SearchWritten(a.slots, |a.entries|, ids[0], 0) == Some(0);
    TimersOfZero(ids');
  }

  // ---------- One step ----------

  lemma AtNew(m: Machine, ids: seq<nat>, ts: map<nat, TimerRec>, qs: seq<seq<nat>>, id: nat, task: nat)
    requires At(m, ids, ts, qs)
    ensures Fits(m, New(id, task)) && Step(m, New(id, task)).Some?
    ensures At(Step(m, New(id, task)).value, ids, ts[id := FreshRec(task)], qs)
  {
    TimersOfZero(ids);
  }

  function Waiting(task: nat, cb: nat): TimerRec {
    TimerRec(OneShot, Active, Some(cb), task, 0, 0, 0, 0, 0)
  }

  lemma AtSchedule(m: Machine, ids: seq<nat>, ts: map<nat, TimerRec>, qs: seq<seq<nat>>,
                   id: nat, task: nat, cb: nat, ids': seq<nat>)
    requires At(m, ids, ts, qs) && id in ts && ts[id] == FreshRec(task) && |ids| < 4
    requires Insert(Zero(ids), Entry(id, 0)) == Zero(ids')
    ensures var e := Schedule(id, cb, AT_ONCE);
            && Fits(m, e) && Step(m, e).Some?
            && At(Step(m, e).value, ids', ts[id := Waiting(task, cb)], qs)
  {
    Added(m.a, ids, id, ids');
  }

  lemma AtStop(m: Machine, ids: seq<nat>, ts: map<nat, TimerRec>, qs: seq<seq<nat>>, id: nat)
    requires At(m, ids, ts, qs) && id in ts && WH.Missed(m.a, WH.Remove(id))
    ensures Fits(m, Stop(id)) && Step(m, Stop(id)).Some?
    ensures At(Step(m, Stop(id)).value, ids, ts[id := ts[id].(state := Idle)], qs)
  {
    MissedChangesNothing(m.a, id);
    TimersOfZero(ids);
  }

  /** A timer that is due at time 0, and Active. */
  predicate DueNow(ts: map<nat, TimerRec>, id: nat) {
    && id in ts && ts[id].whenToFire == 0 && ts[id].state == Active
    && ts[id].task < MAX_TASKS && ts[id].fired == 0
  }

  lemma FireEffect(w: World, top: nat)
    requires |w.queues| == MAX_TASKS && w.clock == 0 && DueNow(w.timers, top)
    ensures Reaches(w, Iterate(top)) && Removes(w, Iterate(top)) == Some(top) && Adds(w, Iterate(top)) == None
    ensures var r := w.timers[top];
            Effect(w, Iterate(top)) ==
            World(w.timers[top := r.(fired := 1, state := Done)], w.heap - multiset{top},
                  w.queues[r.task := w.queues[r.task] + [top]], 0, w.deleted)
  {
    assert Due(w, top);
  }

  lemma AtFire(m: Machine, ids: seq<nat>, ts: map<nat, TimerRec>, qs: seq<seq<nat>>, ids': seq<nat>)
    requires At(m, ids, ts, qs) && |ids| > 0 && DueNow(ts, ids[0])
    requires RemoveWritten(Zero(ids), 0) == Zero(ids')
    ensures var top, e := ids[0], Iterate(ids[0]);
            && Fits(m, e) && Step(m, e).Some?
            && At(Step(m, e).value, ids', ts[top := ts[top].(fired := 1, state := Done)],
                  qs[ts[top].task := qs[ts[top].task] + [top]])
  {
    FireEffect(m.w, ids[0]);
    TopRemoved(m.a, ids, ids');
  }

  lemma AtRearm(m: Machine, ids: seq<nat>, ts: map<nat, TimerRec>, qs: seq<seq<nat>>, ids1: seq<nat>, ids2: seq<nat>)
    requires At(m, ids, ts, qs) && 0 < |ids| <= 4 && ids[0] in ts && ts[ids[0]].whenToFire == 0
    requires ts[ids[0]].state == Idle && ts[ids[0]].task < MAX_TASKS && ts[ids[0]].timeout == 0
    requires RemoveWritten(Zero(ids), 0) == Zero(ids1) && Insert(Zero(ids1), Entry(ids[0], 0)) == Zero(ids2)
    ensures var top, e := ids[0], Iterate(ids[0]);
            && Fits(m, e) && Step(m, e).Some?
            && At(Step(m, e).value, ids2, ts[top := ts[top].(state := Active)], qs)
  {
    TopRemoved(m.a, ids, ids1);
    assert Due(m.w, ids[0]);
    Added(Removed(m.a, Some(ids[0])).value, ids1, ids[0], ids2);
    assert Rearmed(0, ts[ids[0]]) == ts[ids[0]].(state := Active);
  }

  // ---------- Four timers due at once ----------

  ghost predicate ReachedAt(m0: Machine, es: seq<Event>, m: Machine, ids: seq<nat>, ts: map<nat, TimerRec>) {
    Reached(m0, es, m) && Inv(m.w) && Coupled(m) && At(m, ids, ts, [[], [], []])
  }

  lemma NewReached(m0: Machine, es: seq<Event>, m: Machine, ts: map<nat, TimerRec>, id: nat, task: nat)
    returns (m': Machine)
    requires ReachedAt(m0, es, m, [], ts) && id !in ts && id < MAX_NUMBER_OF_TIMERS && task < MAX_TASKS
    ensures ReachedAt(m0, es + [New(id, task)], m', [], ts[id := FreshRec(task)])
  {
    AtNew(m, [], ts, [[], [], []], id, task);
    ReachedOn(m0, es, m, New(id, task));
    m' := After(m, New(id, task));
  }

  lemma ScheduleReached(m0: Machine, es: seq<Event>, m: Machine, ids: seq<nat>, ts: map<nat, TimerRec>,
                        id: nat, task: nat, ids': seq<nat>)
    returns (m': Machine)
    requires ReachedAt(m0, es, m, ids, ts) && id in ts && ts[id] == FreshRec(task) && |ids| < 4 && id !in ids
    requires forall a: nat | a in ts :: ts[a].pCb != Some(10 + id)
    requires Insert(Zero(ids), Entry(id, 0)) == Zero(ids')
    ensures ReachedAt(m0, es + [Schedule(id, 10 + id, AT_ONCE)], m', ids', ts[id := Waiting(task, 10 + id)])
  {
    var e := Schedule(id, 10 + id, AT_ONCE);
    AtSchedule(m, ids, ts, [[], [], []], id, task, 10 + id, ids');
    assert InFlight(m.w.queues) == multiset{};
    assert Enabled(m.w, e);
    ReachedOn(m0, es, m, e);
    m' := After(m, e);
  }

  lemma InsertFirst()
    ensures Insert(Zero([]), Entry(0, 0)) == Zero([0])
  {
    var s := Zero([]) + [Entry(0, 0)];
    assert SiftUp(s, 0) == s;
  }

  lemma InsertSecond()
    ensures Insert(Zero([0]), Entry(1, 0)) == Zero([1, 0])
  {
    var s := Zero([0]) + [Entry(1, 0)];
    assert SiftUp(Swap(s, 0, 1), 0) == Swap(s, 0, 1);
    assert Swap(s, 0, 1) == Zero([1, 0]);
  }

  lemma InsertThird(a: nat, b: nat, c: nat)
    ensures Insert(Zero([a, b]), Entry(c, 0)) == Zero([c, b, a])
  {
    var s := Zero([a, b]) + [Entry(c, 0)];
    assert SiftUp(Swap(s, 0, 2), 0) == Swap(s, 0, 2);
    assert Swap(s, 0, 2) == Zero([c, b, a]);
  }

  lemma InsertFourth()
    ensures Insert(Zero([2, 0, 1]), Entry(3, 0)) == Zero([3, 2, 1, 0])
  {
    var s := Zero([2, 0, 1]) + [Entry(3, 0)];
    var t := Swap(s, 1, 3);
    assert SiftUp(Swap(t, 0, 1), 0) == Swap(t, 0, 1);
    assert Swap(t, 0, 1) == Zero([3, 2, 1, 0]);
    assert SiftUp(s, 3) == SiftUp(t, 1);
  }

  lemma RemoveFirstOfFour()
    ensures RemoveWritten(Zero([3, 2, 1, 0]), 0) == Zero([0, 2, 1])
  {
    assert Unplug(Zero([3, 2, 1, 0]), 0) == Zero([0, 2, 1]);
  }

  lemma RemoveFirstOfThree()
    ensures RemoveWritten(Zero([0, 2, 1]), 0) == Zero([1, 2])
  {
    assert Unplug(Zero([0, 2, 1]), 0) == Zero([1, 2]);
  }

  function Task(id: nat): nat {
    if id == 0 then 1 else 0
  }

  /** Timers 0 .. n - 1 are new. */
  ghost predicate Born(ts: map<nat, TimerRec>, n: nat) {
    forall a: nat :: (a in ts <==> a < n) && (a in ts ==> ts[a] == FreshRec(Task(a)))
  }

  /** Of timers 0 .. 3 the first n are scheduled. */
  ghost predicate Set(ts: map<nat, TimerRec>, n: nat) {
    forall a: nat :: (a in ts <==> a < 4)
      && (a in ts ==> ts[a] == if a < n then Waiting(Task(a), 10 + a) else FreshRec(Task(a)))
  }

  /** The service at its start, with whatever the heap array happens to hold. */
  function Start(slots: seq<nat>): Machine {
    Machine(EMPTY, WH.HeapArray(slots, []))
  }

  lemma StartReached(slots: seq<nat>)
    requires |slots| == MAX_NUMBER_OF_TIMERS
    ensures ReachedAt(Start(slots), [], Start(slots), [], map[])
  {
    EmptyInvariant();
  }

  lemma NextBorn(m0: Machine, es: seq<Event>, m: Machine, ts: map<nat, TimerRec>, n: nat)
    returns (m': Machine, ts': map<nat, TimerRec>)
    requires ReachedAt(m0, es, m, [], ts) && Born(ts, n) && n < 4
    ensures ReachedAt(m0, es + [New(n, Task(n))], m', [], ts') && Born(ts', n + 1)
  {
    m' := NewReached(m0, es, m, ts, n, Task(n));
    ts' := ts[n := FreshRec(Task(n))];
  }

  lemma SetNext(ts: map<nat, TimerRec>, n: nat)
    requires Set(ts, n) && n < 4
    ensures n in ts && ts[n] == FreshRec(Task(n)) && forall a: nat | a in ts :: ts[a].pCb != Some(10 + n)
    ensures Set(ts[n := Waiting(Task(n), 10 + n)], n + 1)
  {
  }

  lemma NextSet(m0: Machine, es: seq<Event>, m: Machine, ids: seq<nat>, ts: map<nat, TimerRec>, n: nat, ids': seq<nat>)
    returns (m': Machine, ts': map<nat, TimerRec>)
    requires ReachedAt(m0, es, m, ids, ts) && Set(ts, n) && n < 4 && |ids| == n && n !in ids
    requires Insert(Zero(ids), Entry(n, 0)) == Zero(ids')
    ensures ReachedAt(m0, es + [Schedule(n, 10 + n, AT_ONCE)], m', ids', ts') && Set(ts', n + 1)
  {
    SetNext(ts, n);
    m' := ScheduleReached(m0, es, m, ids, ts, n, Task(n), ids');
    ts' := ts[n := Waiting(Task(n), 10 + n)];
  }

  lemma FourBorn(slots: seq<nat>) returns (es: seq<Event>, m: Machine, ts: map<nat, TimerRec>)
    requires |slots| == MAX_NUMBER_OF_TIMERS
    ensures |es| == 4 && forall i | 0 <= i < 4 :: es[i] == New(i, Task(i))
    ensures ReachedAt(Start(slots), es, m, [], ts) && Born(ts, 4)
  {
    StartReached(slots);
    es, m, ts := [], Start(slots), map[];
    for n := 0 to 4
      invariant |es| == n && forall i | 0 <= i < n :: es[i] == New(i, Task(i))
      invariant ReachedAt(Start(slots), es, m, [], ts) && Born(ts, n)
    {
      m, ts := NextBorn(Start(slots), es, m, ts, n);
      es := es + [New(n, Task(n))];
    }
  }

  /** The timers of the heap, in their order, when n of the four are scheduled. */
  function Order(n: nat): seq<nat>
    requires n <= 4
  {
    match n
    case 0 => []
    case 1 => [0]
    case 2 => [1, 0]
    case 3 => [2, 0, 1]
    case 4 => [3, 2, 1, 0]
  }

  lemma NextOrder(n: nat)
    requires n < 4
    ensures |Order(n)| == n && n !in Order(n)
    ensures Insert(Zero(Order(n)), Entry(n, 0)) == Zero(Order(n + 1))
  {
    match n
    case 0 => InsertFirst();
    case 1 => InsertSecond();
    case 2 => InsertThird(1, 0, 2);
    case 3 => InsertFourth();
  }

  /** Four calls of new, and n of schedule. */
  ghost predicate Planned(es: seq<Event>, n: nat) {
    && |es| == 4 + n
    && (forall i | 0 <= i < 4 :: es[i] == New(i, Task(i)))
    && (forall i | 4 <= i < 4 + n :: es[i] == Schedule(i - 4, 6 + i, AT_ONCE))
  }

  lemma PlannedNext(es: seq<Event>, n: nat)
    requires Planned(es, n)
    ensures Planned(es + [Schedule(n, 10 + n, AT_ONCE)], n + 1)
  {
  }

  ghost predicate SetUp(m0: Machine, es: seq<Event>, m: Machine, ts: map<nat, TimerRec>, n: nat) {
    n <= 4 && Planned(es, n) && ReachedAt(m0, es, m, Order(n), ts) && Set(ts, n)
  }

  lemma NextSetUp(m0: Machine, es: seq<Event>, m: Machine, ts: map<nat, TimerRec>, n: nat)
    returns (m': Machine, ts': map<nat, TimerRec>)
    requires SetUp(m0, es, m, ts, n) && n < 4
    ensures SetUp(m0, es + [Schedule(n, 10 + n, AT_ONCE)], m', ts', n + 1)
  {
    NextOrder(n);
    PlannedNext(es, n);
    m', ts' := NextSet(m0, es, m, Order(n), ts, n, Order(n + 1));
  }

  lemma FourSet(slots: seq<nat>) returns (es: seq<Event>, m: Machine, ts: map<nat, TimerRec>)
    requires |slots| == MAX_NUMBER_OF_TIMERS
    ensures SetUp(Start(slots), es, m, ts, 4)
  {
    es, m, ts := FourBorn(slots);
    assert Set(ts, 0);
    for n := 0 to 4
      invariant SetUp(Start(slots), es, m, ts, n)
    {
      m, ts := NextSetUp(Start(slots), es, m, ts, n);
      es := es + [Schedule(n, 10 + n, AT_ONCE)];
    }
  }

  // ---------- The stop, and the timer task at work ----------

  function WithMessages(zero: seq<nat>, one: seq<nat>): (qs: seq<seq<nat>>)
    ensures |qs| == MAX_TASKS
  {
    [zero, one, []]
  }

  lemma StopMisses(m: Machine, ts: map<nat, TimerRec>) returns (m': Machine)
    requires At(m, [3, 2, 1, 0], ts, WithMessages([], [])) && 0 in ts
    ensures Makes(m, Stop(0), m')
    ensures At(m', [3, 2, 1, 0], ts[0 := ts[0].(state := Idle)], WithMessages([], []))
  {
    assert m.a.slots[..3] == [3, 2, 1];
    AtStop(m, [3, 2, 1, 0], ts, WithMessages([], []), 0);
    m' := Step(m, Stop(0)).value;
  }

  lemma OtherFires(m: Machine, ts: map<nat, TimerRec>) returns (m': Machine)
    requires At(m, [3, 2, 1, 0], ts, WithMessages([], [])) && 3 in ts && ts[3] == Waiting(0, 13)
    ensures Makes(m, Iterate(3), m')
    ensures At(m', [0, 2, 1], ts[3 := ts[3].(fired := 1, state := Done)], WithMessages([3], []))
  {
    RemoveFirstOfFour();
    AtFire(m, [3, 2, 1, 0], ts, WithMessages([], []), [0, 2, 1]);
    m' := Step(m, Iterate(3)).value;
    FirstQueued([]);
  }

  lemma StoppedIsRearmed(m: Machine, ts: map<nat, TimerRec>, qs: seq<seq<nat>>) returns (m': Machine)
    requires At(m, [0, 2, 1], ts, qs) && 0 in ts && ts[0] == Waiting(1, 10).(state := Idle)
    ensures Makes(m, Iterate(0), m') && At(m', [0, 2, 1], ts[0 := Waiting(1, 10)], qs)
  {
    RemoveFirstOfThree();
    InsertThird(1, 2, 0);
    AtRearm(m, [0, 2, 1], ts, qs, [1, 2], [0, 2, 1]);
    m' := Step(m, Iterate(0)).value;
    assert ts[0].(state := Active) == Waiting(1, 10);
  }

  lemma StoppedIsSent(m: Machine, ts: map<nat, TimerRec>) returns (m': Machine)
    requires At(m, [0, 2, 1], ts, WithMessages([3], [])) && 0 in ts && ts[0] == Waiting(1, 10)
    ensures Makes(m, Iterate(0), m')
    ensures At(m', [1, 2], ts[0 := ts[0].(fired := 1, state := Done)], WithMessages([3], [0]))
  {
    RemoveFirstOfThree();
    AtFire(m, [0, 2, 1], ts, WithMessages([3], []), [1, 2]);
    m' := Step(m, Iterate(0)).value;
    SecondQueued([3]);
  }

  lemma FirstQueued(one: seq<nat>)
    ensures WithMessages([], one)[0 := WithMessages([], one)[0] + [3]] == WithMessages([3], one)
  {
    assert WithMessages([], one)[0] + [3] == [3];
  }

  lemma SecondQueued(zero: seq<nat>)
    ensures WithMessages(zero, [])[1 := WithMessages(zero, [])[1] + [0]] == WithMessages(zero, [0])
  {
    assert WithMessages(zero, [])[1] + [0] == [0];
  }

  // Timer 3 fires; timer 0, which was stopped, comes to the top and is re-armed; it comes to the
  // top again, and fires.
  lemma StoppedFires(m: Machine, ts: map<nat, TimerRec>) returns (m1: Machine, m2: Machine, m3: Machine, m4: Machine)
    requires At(m, [3, 2, 1, 0], ts, WithMessages([], [])) && Set(ts, 4)
    ensures Makes(m, Stop(0), m1) && Makes(m1, Iterate(3), m2) && Makes(m2, Iterate(0), m3) && Makes(m3, Iterate(0), m4)
    ensures m4.w.queues == WithMessages([3], [0]) && 0 in m4.w.timers
    ensures m4.w.timers[0] == Waiting(1, 10).(fired := 1, state := Done)
  {
    m1 := StopMisses(m, ts);
    var t1 := ts[0 := ts[0].(state := Idle)];
    m2 := OtherFires(m1, t1);
    var t2 := t1[3 := t1[3].(fired := 1, state := Done)];
    m3 := StoppedIsRearmed(m2, t2, WithMessages([3], []));
    m4 := StoppedIsSent(m3, t2[0 := Waiting(1, 10)]);
  }

  /** A run of the protocol from the start leads to w. */
  ghost predicate Leads(es: seq<Event>, w: World) {
    Inv(EMPTY) && Runs(EMPTY, es) && Final(EMPTY, es) == w
  }

  /** The step keeps to the usage discipline. */
  ghost predicate Allows(w: World, e: Event) {
    |w.queues| == MAX_TASKS && Enabled(w, e)
  }

  /** The next message of queue q is for timer id, and receiving it runs callback cb. */
  predicate WillRun(w: World, q: nat, id: nat, cb: nat) {
    && Reaches(w, Deliver(q)) && w.queues[q][0] == id
    && ObserveProcessing(w.timers[id], id) == [Triggered(id, cb), FreedCallback(cb), FreedTimer(id)]
  }

  lemma StopAllowed(m: Machine, ts: map<nat, TimerRec>)
    requires At(m, [3, 2, 1, 0], ts, WithMessages([], [])) && 0 in ts
    ensures Allows(m.w, Stop(0))
  {
    assert InFlight(m.w.queues) == multiset{};
  }

  lemma CallbackRuns(m: Machine)
    requires m.w.queues == WithMessages([3], [0]) && 0 in m.w.timers
    requires m.w.timers[0] == Waiting(1, 10).(fired := 1, state := Done)
    ensures WillRun(m.w, 1, 0, 10)
  {
  }

  // Four timers are made and scheduled, a run of the protocol; the stop of timer 0 keeps to the
  // discipline; and yet, with no further call, it is re-armed, its message is sent, and the
  // task that receives it runs its callback.
  lemma StoppedCallbackRuns(slots: seq<nat>)
    returns (before: seq<Event>, m: Machine, m1: Machine, m2: Machine, m3: Machine, m4: Machine)
    requires |slots| == MAX_NUMBER_OF_TIMERS
    ensures Planned(before, 4) && Reached(Start(slots), before, m)
    ensures Leads(before, m.w) && Allows(m.w, Stop(0))
    ensures Makes(m, Stop(0), m1) && Makes(m1, Iterate(3), m2) && Makes(m2, Iterate(0), m3) && Makes(m3, Iterate(0), m4)
    ensures WillRun(m4.w, 1, 0, 10)
  {
    var ts;
    before, m, ts := FourSet(slots);
    WrittenRefines(Start(slots), before);
    StopAllowed(m, ts);
    m1, m2, m3, m4 := StoppedFires(m, ts);
    CallbackRuns(m4);
  }
}
