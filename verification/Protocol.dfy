/**
 The life of a timer as a protocol between the application, the timer task and the tasks
 that run the callbacks, on values. Every call of the application interface, every
 iteration of the timer task and every received expiry message is one atomic step.

 The heap is the bag of the timers it holds. The timer task may look at any of them as
 its top, so what is proved here does not rest on the heap order; `IsTop` adds it back
 where it matters. `Enabled` states the usage discipline the steps rely on.
 */
module Protocol {
  import opened Common
  import opened TimerUtils

  datatype TimerType = OneShot | Periodic | Invalid
  datatype TimerState = Idle | Active | Done

  /** The fields of a Timer object. Callbacks are named by object identity; task is the
      callback context task. */
  datatype TimerRec = TimerRec(
    kind: TimerType, state: TimerState, pCb: Option<nat>, task: nat,
    howMany: nat, fired: nat, first: nat, timeout: nat, whenToFire: nat)

  datatype ScheduleArgs = ScheduleArgs(
    first: nat, firstIsAbsolute: bool, timeout: nat, timeoutIsAbsolute: bool,
    kind: TimerType, howMany: nat, fuzzy: bool, draw: nat)

  /** timers: the live pool slots; queues: the expiry messages of each task, oldest first;
      deleted: the callback objects deleted so far. */
  datatype World = World(
    timers: map<nat, TimerRec>, heap: multiset<nat>, queues: seq<seq<nat>>,
    clock: nat, deleted: set<nat>)

  datatype Event =
    | New(id: nat, task: nat)
    | Schedule(id: nat, cb: nat, args: ScheduleArgs)
    | Cancel(id: nat)
    | Restart(id: nat)
    | Stop(id: nat)
    | Delete(id: nat)
    | Iterate(top: nat)
    | Poll
    | Deliver(queue: nat)
    | Tick(now: nat)

  const EMPTY := World(map[], multiset{}, [[], [], []], 0, {})

  function FreshRec(task: nat): TimerRec {
    TimerRec(Invalid, Idle, None, task, 0, 0, 0, 0, 0)
  }

  // ---------- What a world has to keep ----------

  function InFlight(queues: seq<seq<nat>>): multiset<nat>
    requires |queues| == MAX_TASKS
  {
    multiset(queues[0]) + multiset(queues[1]) + multiset(queues[2])
  }

  /** What the fields of a live timer say about where it is. */
  predicate RecOk(r: TimerRec, inHeap: bool, inFlight: bool) {
    && r.task < MAX_TASKS
    && r.fired < TWO_32
    && (inHeap ==> r.kind != Invalid && (r.state == Active || (r.state == Idle && r.pCb == None)))
    && (inFlight ==> r.kind != Invalid && (r.state == Done || (r.state == Idle && r.pCb == None)))
    && (r.state == Active ==> inHeap)
    && (r.state == Done ==> inFlight || r.pCb == None)
    && (r.kind == Invalid ==> r.state == Idle && r.pCb == None)
  }

  predicate TimerOk(w: World, id: nat)
    requires |w.queues| == MAX_TASKS
  {
    && w.heap[id] + InFlight(w.queues)[id] <= 1
    && (id !in w.timers ==> w.heap[id] + InFlight(w.queues)[id] == 0)
    && (id in w.timers ==>
          && id < MAX_NUMBER_OF_TIMERS
          && RecOk(w.timers[id], id in w.heap, id in InFlight(w.queues))
          && (forall q | 0 <= q < MAX_TASKS && id in w.queues[q] :: w.timers[id].task == q))
  }

  predicate Uses(w: World, id: nat, cb: nat) {
    id in w.timers && w.timers[id].pCb == Some(cb)
  }

  /** The timer's callback is not deleted. */
  predicate CallbackLive(w: World, id: nat) {
    id in w.timers && w.timers[id].pCb.Some? ==> w.timers[id].pCb.value !in w.deleted
  }

  /** Timers a and b do not share a callback. */
  predicate CallbacksApart(w: World, a: nat, b: nat) {
    a in w.timers && b in w.timers && w.timers[a].pCb.Some? && w.timers[a].pCb == w.timers[b].pCb ==> a == b
  }

  ghost predicate CallbacksOk(w: World) {
    && (forall id: nat :: CallbackLive(w, id))
    && (forall a: nat, b: nat :: CallbacksApart(w, a, b))
  }

  ghost predicate Inv(w: World) {
    && |w.queues| == MAX_TASKS
    && (forall id: nat :: TimerOk(w, id))
    && CallbacksOk(w)
  }

  // ---------- Steps ----------

  /** The usage discipline. */
  ghost predicate Enabled(w: World, e: Event)
    requires |w.queues| == MAX_TASKS
  {
    match e
    case New(id, task) =>
      id < MAX_NUMBER_OF_TIMERS && id !in w.timers && task < MAX_TASKS
    case Schedule(id, cb, args) =>
      && id in w.timers && id !in w.heap && id !in InFlight(w.queues)
      && CallbackOffered(w, id, cb) && ArgsOk(w.clock, args)
    case Cancel(id) => id in w.timers
    case Restart(id) => id in w.timers && id !in InFlight(w.queues) && w.timers[id].pCb.Some?
    case Stop(id) => id in w.timers && id !in InFlight(w.queues)
    case Delete(id) => id in w.timers && id !in InFlight(w.queues)
    case Iterate(top) => top in w.heap
    case Poll => w.heap == multiset{}
    case Deliver(q) => q < MAX_TASKS && w.queues[q] != []
    case Tick(now) => w.clock <= now
  }

  /** A callback object offered to a timer that has none is not in use and not deleted; one
      offered to a timer that has one is not taken. */
  ghost predicate CallbackOffered(w: World, id: nat, cb: nat)
    requires id in w.timers
  {
    || w.timers[id].pCb.Some?
    || (cb !in w.deleted && forall a: nat :: !Uses(w, a, cb))
  }

  /** Fields in range, and no division by zero in the choice of a fuzzy firing time. */
  predicate ArgsOk(clock: nat, a: ScheduleArgs) {
    && a.kind != Invalid
    && a.howMany < TWO_32
    && a.first < TWO_64 && a.timeout < TWO_64
    && (a.fuzzy ==> Bound(clock, a.first, a.firstIsAbsolute) != Bound(clock, a.timeout, a.timeoutIsAbsolute))
  }

  /** A fuzzy timer with its bounds the wrong way round keeps its old firing time, and an
      absolute first time is taken from the member `first`, not from the argument. */
  function FirstFiring(clock: nat, r: TimerRec, a: ScheduleArgs): nat
    requires ArgsOk(clock, a)
  {
    if a.fuzzy then
      var x1, x2 := Bound(clock, a.first, a.firstIsAbsolute), Bound(clock, a.timeout, a.timeoutIsAbsolute);
      if x2 < x1 then r.whenToFire else TimeoutToAbsolute(clock, FuzzyTimeout(x1, x2, a.draw))
    else if a.firstIsAbsolute then r.first
    else TimeoutToAbsolute(clock, a.first)
  }

  function Scheduled(clock: nat, r: TimerRec, cb: nat, a: ScheduleArgs): TimerRec
    requires ArgsOk(clock, a)
  {
    TimerRec(
      a.kind, Active, if r.pCb.None? then Some(cb) else r.pCb, r.task,
      a.howMany, 0,
      if a.fuzzy || a.firstIsAbsolute then r.first else a.first,
      Bound(clock, a.timeout, a.timeoutIsAbsolute),
      FirstFiring(clock, r, a))
  }

  function Rearmed(clock: nat, r: TimerRec): TimerRec {
    r.(state := Active, whenToFire := TimeoutToAbsolute(clock, r.timeout))
  }

  function Owned(r: TimerRec): set<nat> {
    if r.pCb.Some? then {r.pCb.value} else {}
  }

  function NewTimer(w: World, id: nat, task: nat): World {
    w.(timers := w.timers[id := FreshRec(task)])
  }

  function ScheduleTimer(w: World, id: nat, cb: nat, args: ScheduleArgs): World
    requires id in w.timers && ArgsOk(w.clock, args)
  {
    w.(timers := w.timers[id := Scheduled(w.clock, w.timers[id], cb, args)], heap := w.heap + multiset{id})
  }

  /** The callback is deleted; the timer stays where it is, in the heap or under way. */
  function CancelTimer(w: World, id: nat): World
    requires id in w.timers
  {
    var r := w.timers[id];
    w.(timers := w.timers[id := r.(pCb := None, state := Idle)], deleted := w.deleted + Owned(r))
  }

  function RestartTimer(w: World, id: nat): World
    requires id in w.timers
  {
    var r := w.timers[id];
    w.(timers := w.timers[id := Rearmed(w.clock, r)],
       heap := (if r.state == Active then w.heap - multiset{id} else w.heap) + multiset{id})
  }

  function StopTimer(w: World, id: nat): World
    requires id in w.timers
  {
    w.(timers := w.timers[id := w.timers[id].(state := Idle)], heap := w.heap - multiset{id})
  }

  /** The destructor and the return of the slot to the pool. */
  function Destroy(w: World, id: nat): World
    requires id in w.timers
  {
    var r := w.timers[id];
    w.(timers := w.timers - {id},
       heap := if r.kind == Invalid || r.state == Done then w.heap else w.heap - multiset{id},
       deleted := w.deleted + Owned(r))
  }

  predicate Due(w: World, id: nat)
    requires id in w.timers
  {
    w.timers[id].whenToFire <= w.clock
  }

  /** A due Active timer at the top: counted, taken out, marked Done, and reported. */
  function FireTop(w: World, top: nat): World
    requires |w.queues| == MAX_TASKS && top in w.timers && w.timers[top].task < MAX_TASKS
  {
    var r := w.timers[top];
    w.(timers := w.timers[top := r.(fired := (r.fired + 1) % TWO_32, state := Done)],
       heap := w.heap - multiset{top},
       queues := w.queues[r.task := w.queues[r.task] + [top]])
  }

  /** A due Idle timer at the top: taken out and put back a timeout later, Active. */
  function RearmTop(w: World, top: nat): World
    requires top in w.timers
  {
    w.(timers := w.timers[top := Rearmed(w.clock, w.timers[top])],
       heap := w.heap - multiset{top} + multiset{top})
  }

  /** One iteration of the timer task that finds `top` in slot 0. */
  function IterateOn(w: World, top: nat): World
    requires |w.queues| == MAX_TASKS && top in w.timers && w.timers[top].task < MAX_TASKS
  {
    if !Due(w, top) then w
    else
      match w.timers[top].state
      case Active => FireTop(w, top)
      case Idle => RearmTop(w, top)
      case Done => w
  }

  /** Whether a callback that has just run re-arms its timer. The comparison is `<=`. */
  predicate Rearms(r: TimerRec) {
    r.kind == Periodic && (r.fired <= r.howMany || r.howMany == 0)
  }

  function ProcessCallback(w: World, id: nat): World
    requires id in w.timers
  {
    var r := w.timers[id];
    if r.kind == Invalid || r.pCb.None? then w
    else if Rearms(r) then w.(timers := w.timers[id := Rearmed(w.clock, r)], heap := w.heap + multiset{id})
    else Destroy(w, id)
  }

  function DeliverFrom(w: World, q: nat): World
    requires q < |w.queues| && w.queues[q] != [] && w.queues[q][0] in w.timers
  {
    ProcessCallback(w.(queues := w.queues[q := w.queues[q][1..]]), w.queues[q][0])
  }

  /** What the heap order adds: the top is no later than any other timer in the heap. */
  ghost predicate IsTop(w: World, top: nat) {
    && top in w.heap && top in w.timers
    && forall id | id in w.timers && id in w.heap :: w.timers[top].whenToFire <= w.timers[id].whenToFire
  }

  // Every timer a step looks at through the heap or a message is a live pool slot.
  lemma ReachedTimersAreLive(w: World, e: Event)
    requires Inv(w) && Enabled(w, e)
    ensures e.Iterate? ==> e.top in w.timers && w.timers[e.top].task < MAX_TASKS
    ensures e.Deliver? ==> w.queues[e.queue][0] in w.timers
  {
    if e.Iterate? {
      assert TimerOk(w, e.top);
    }
    if e.Deliver? {
      assert TimerOk(w, w.queues[e.queue][0]);
      assert w.queues[e.queue][0] in w.queues[e.queue];
    }
  }

  /** The timer the step is about is live, and what it is about exists. */
  predicate Reaches(w: World, e: Event) {
    && |w.queues| == MAX_TASKS
    && match e
       case New(_, _) => true
       case Schedule(id, _, args) => id in w.timers && ArgsOk(w.clock, args)
       case Iterate(top) => top in w.timers && w.timers[top].task < MAX_TASKS
       case Deliver(q) => q < MAX_TASKS && w.queues[q] != [] && w.queues[q][0] in w.timers
       case Poll => true
       case Tick(_) => true
       case _ => e.id in w.timers
  }

  function Effect(w: World, e: Event): World
    requires Reaches(w, e)
  {
    match e
    case New(id, task) => NewTimer(w, id, task)
    case Schedule(id, cb, args) => ScheduleTimer(w, id, cb, args)
    case Cancel(id) => CancelTimer(w, id)
    case Restart(id) => RestartTimer(w, id)
    case Stop(id) => StopTimer(w, id)
    case Delete(id) => Destroy(w, id)
    case Iterate(top) => IterateOn(w, top)
    case Poll => w
    case Deliver(q) => DeliverFrom(w, q)
    case Tick(now) => w.(clock := now)
  }

  function Act(w: World, e: Event): World
    requires Inv(w) && Enabled(w, e)
  {
    ReachedTimersAreLive(w, e);
    Effect(w, e)
  }

  // ---------- Every step keeps the invariant ----------

  /** The timer a step is about, if any. */
  function Subject(w: World, e: Event): Option<nat>
    requires |w.queues| == MAX_TASKS
    requires e.Deliver? ==> e.queue < MAX_TASKS && w.queues[e.queue] != []
  {
    match e
    case Iterate(top) => Some(top)
    case Deliver(q) => Some(w.queues[q][0])
    case Tick(_) => None
    case Poll => None
    case _ => Some(e.id)
  }

  /** Everything the world holds about one timer. */
  predicate SameTimer(w: World, w': World, id: nat)
    requires |w.queues| == |w'.queues| == MAX_TASKS
  {
    && (id in w.timers <==> id in w'.timers)
    && (id in w.timers ==> w.timers[id] == w'.timers[id])
    && w.heap[id] == w'.heap[id]
    && InFlight(w.queues)[id] == InFlight(w'.queues)[id]
    && (forall q | 0 <= q < MAX_TASKS :: id in w.queues[q] <==> id in w'.queues[q])
  }

  lemma QueueEnqueue(qs: seq<seq<nat>>, q: nat, x: nat)
    requires |qs| == MAX_TASKS && q < MAX_TASKS
    ensures InFlight(qs[q := qs[q] + [x]]) == InFlight(qs) + multiset{x}
    ensures forall p, y | 0 <= p < MAX_TASKS :: y in qs[q := qs[q] + [x]][p] <==> y in qs[p] || (p == q && y == x)
  {
  }

  lemma QueueDequeue(qs: seq<seq<nat>>, q: nat)
    requires |qs| == MAX_TASKS && q < MAX_TASKS && qs[q] != []
    ensures InFlight(qs) == InFlight(qs[q := qs[q][1..]]) + multiset{qs[q][0]}
    ensures forall p, y | 0 <= p < MAX_TASKS && y != qs[q][0] :: y in qs[q := qs[q][1..]][p] <==> y in qs[p]
    ensures forall p, y | 0 <= p < MAX_TASKS && y in qs[q := qs[q][1..]][p] :: y in qs[p]
  {
    assert qs[q] == [qs[q][0]] + qs[q][1..];
  }

  lemma IterateOthers(w: World, top: nat, id: nat)
    requires |w.queues| == MAX_TASKS && top in w.timers && w.timers[top].task < MAX_TASKS && id != top
    ensures SameTimer(w, IterateOn(w, top), id)
  {
    QueueEnqueue(w.queues, w.timers[top].task, top);
  }

  lemma ProcessOthers(w: World, top: nat, id: nat)
    requires |w.queues| == MAX_TASKS && top in w.timers && id != top
    ensures SameTimer(w, ProcessCallback(w, top), id)
  {
  }

  lemma DeliverOthers(w: World, q: nat, id: nat)
    requires |w.queues| == MAX_TASKS && q < MAX_TASKS && w.queues[q] != [] && w.queues[q][0] in w.timers
    requires id != w.queues[q][0]
    ensures SameTimer(w, DeliverFrom(w, q), id)
  {
    QueueDequeue(w.queues, q);
    ProcessOthers(w.(queues := w.queues[q := w.queues[q][1..]]), w.queues[q][0], id);
  }

  lemma CallOthers(w: World, e: Event, id: nat)
    requires Inv(w) && Enabled(w, e) && Subject(w, e) != Some(id) && !e.Iterate? && !e.Deliver?
    ensures Act(w, e).queues == w.queues && SameTimer(w, Act(w, e), id)
  {
  }

  // A step leaves every timer but its subject as it was.
  lemma OthersUntouched(w: World, e: Event, id: nat)
    requires Inv(w) && Enabled(w, e) && Subject(w, e) != Some(id)
    ensures |Act(w, e).queues| == MAX_TASKS && SameTimer(w, Act(w, e), id)
  {
    ReachedTimersAreLive(w, e);
    if e.Iterate? {
      IterateOthers(w, e.top, id);
    } else if e.Deliver? {
      DeliverOthers(w, e.queue, id);
    } else {
      CallOthers(w, e, id);
    }
  }

  lemma ScheduleSubject(w: World, e: Event)
    requires Inv(w) && Enabled(w, e) && (e.New? || e.Schedule? || e.Cancel? || e.Restart? || e.Stop? || e.Delete?)
    ensures TimerOk(Act(w, e), e.id)
  {
    assert TimerOk(w, e.id);
  }

  lemma IterateSubject(w: World, top: nat)
    requires Inv(w) && top in w.heap && top in w.timers && w.timers[top].task < MAX_TASKS
    ensures TimerOk(IterateOn(w, top), top)
  {
    assert TimerOk(w, top);
    QueueEnqueue(w.queues, w.timers[top].task, top);
    assert forall q | 0 <= q < MAX_TASKS :: top !in w.queues[q];
  }

  // Once its message is taken off the queue, the timer is nowhere.
  lemma DequeuedSubject(w: World, q: nat)
    requires |w.queues| == MAX_TASKS && q < MAX_TASKS && w.queues[q] != [] && TimerOk(w, w.queues[q][0])
    ensures var id, qs := w.queues[q][0], w.queues[q := w.queues[q][1..]];
            && w.heap[id] == InFlight(qs)[id] == 0
            && (forall p | 0 <= p < MAX_TASKS :: id !in qs[p])
            && id in w.timers && id < MAX_NUMBER_OF_TIMERS && RecOk(w.timers[id], false, true)
  {
    var id, qs := w.queues[q][0], w.queues[q := w.queues[q][1..]];
    QueueDequeue(w.queues, q);
    assert id in w.queues[q];
    assert InFlight(qs)[id] == 0;
    forall p | 0 <= p < MAX_TASKS ensures id !in qs[p] {
      assert multiset(qs[p])[id] == 0;
    }
  }

  lemma ProcessSubject(v: World, id: nat)
    requires |v.queues| == MAX_TASKS && v.heap[id] == InFlight(v.queues)[id] == 0
    requires forall p | 0 <= p < MAX_TASKS :: id !in v.queues[p]
    requires id in v.timers && id < MAX_NUMBER_OF_TIMERS && RecOk(v.timers[id], false, true)
    ensures TimerOk(ProcessCallback(v, id), id)
  {
  }

  lemma DeliverSubject(w: World, q: nat)
    requires Inv(w) && q < MAX_TASKS && w.queues[q] != [] && w.queues[q][0] in w.timers
    ensures TimerOk(DeliverFrom(w, q), w.queues[q][0])
  {
    assert TimerOk(w, w.queues[q][0]);
    DequeuedSubject(w, q);
    ProcessSubject(w.(queues := w.queues[q := w.queues[q][1..]]), w.queues[q][0]);
  }

  /** No timer of w' has a callback it did not have in w. */
  ghost predicate NoNewCallbacks(w: World, w': World) {
    forall a: nat | a in w'.timers && w'.timers[a].pCb.Some? ::
      a in w.timers && w.timers[a].pCb == w'.timers[a].pCb
  }

  lemma CallbacksKept(w: World, w': World)
    requires CallbacksOk(w) && w'.deleted == w.deleted && NoNewCallbacks(w, w')
    ensures CallbacksOk(w')
  {
    forall a: nat ensures CallbackLive(w', a) {
      assert CallbackLive(w, a);
    }
    forall a: nat, b: nat ensures CallbacksApart(w', a, b) {
      assert CallbacksApart(w, a, b);
    }
  }

  lemma CallbackDeleted(w: World, w': World, id: nat)
    requires CallbacksOk(w) && id in w.timers && w'.deleted == w.deleted + Owned(w.timers[id])
    requires NoNewCallbacks(w, w') && (id in w'.timers ==> w'.timers[id].pCb.None?)
    ensures CallbacksOk(w')
  {
    forall a: nat ensures CallbackLive(w', a) {
      assert CallbackLive(w, a) && CallbacksApart(w, a, id);
    }
    forall a: nat, b: nat ensures CallbacksApart(w', a, b) {
      assert CallbacksApart(w, a, b);
    }
  }

  lemma CallbacksAfterProcessing(w: World, id: nat)
    requires CallbacksOk(w) && id in w.timers
    ensures CallbacksOk(ProcessCallback(w, id))
  {
    var w' := ProcessCallback(w, id);
    if w'.deleted == w.deleted {
      CallbacksKept(w, w');
    } else {
      CallbackDeleted(w, w', id);
    }
  }

  lemma CallbacksAfterDelivery(w: World, q: nat)
    requires CallbacksOk(w) && q < |w.queues| && w.queues[q] != [] && w.queues[q][0] in w.timers
    ensures CallbacksOk(DeliverFrom(w, q))
  {
    var v := w.(queues := w.queues[q := w.queues[q][1..]]);
    CallbacksKept(w, v);
    CallbacksAfterProcessing(v, w.queues[q][0]);
  }

  lemma CallbacksAfterScheduling(w: World, id: nat, cb: nat, args: ScheduleArgs)
    requires CallbacksOk(w) && id in w.timers && ArgsOk(w.clock, args) && CallbackOffered(w, id, cb)
    ensures CallbacksOk(ScheduleTimer(w, id, cb, args))
  {
    var w' := ScheduleTimer(w, id, cb, args);
    if w.timers[id].pCb.Some? {
      CallbacksKept(w, w');
    } else {
      forall a: nat ensures CallbackLive(w', a) {
        assert CallbackLive(w, a);
      }
      forall a: nat, b: nat ensures CallbacksApart(w', a, b) {
        assert CallbacksApart(w, a, b) && !Uses(w, a, cb) && !Uses(w, b, cb);
      }
    }
  }

  lemma CallbacksAfterIteration(w: World, top: nat)
    requires CallbacksOk(w) && |w.queues| == MAX_TASKS && top in w.timers && w.timers[top].task < MAX_TASKS
    ensures CallbacksOk(IterateOn(w, top))
  {
    CallbacksKept(w, IterateOn(w, top));
  }

  lemma CallbacksAfter(w: World, e: Event)
    requires CallbacksOk(w) && Reaches(w, e) && (e.Schedule? ==> CallbackOffered(w, e.id, e.cb))
    ensures CallbacksOk(Effect(w, e))
  {
    match e
    case Cancel(id) => CallbackDeleted(w, CancelTimer(w, id), id);
    case Delete(id) => CallbackDeleted(w, Destroy(w, id), id);
    case Deliver(q) => CallbacksAfterDelivery(w, q);
    case Schedule(id, cb, args) => CallbacksAfterScheduling(w, id, cb, args);
    case Iterate(top) => CallbacksAfterIteration(w, top);
    case _ => CallbacksKept(w, Effect(w, e));
  }

  lemma SubjectKept(w: World, e: Event)
    requires Inv(w) && Enabled(w, e) && Subject(w, e).Some?
    ensures |Act(w, e).queues| == MAX_TASKS && TimerOk(Act(w, e), Subject(w, e).value)
  {
    ReachedTimersAreLive(w, e);
    if e.Iterate? {
      IterateSubject(w, e.top);
    } else if e.Deliver? {
      DeliverSubject(w, e.queue);
    } else {
      ScheduleSubject(w, e);
    }
  }

  lemma StepKeepsTimer(w: World, e: Event, id: nat)
    requires Inv(w) && Enabled(w, e)
    ensures |Act(w, e).queues| == MAX_TASKS && TimerOk(Act(w, e), id)
  {
    if Subject(w, e) != Some(id) {
      OthersUntouched(w, e, id);
      assert TimerOk(w, id);
    } else {
      SubjectKept(w, e);
    }
  }

  lemma StepKeepsInvariant(w: World, e: Event)
    requires Inv(w) && Enabled(w, e)
    ensures Inv(Act(w, e))
  {
    ReachedTimersAreLive(w, e);
    CallbacksAfter(w, e);
    StepKeepsTimer(w, e, 0);
    forall id: nat ensures TimerOk(Act(w, e), id) {
      StepKeepsTimer(w, e, id);
    }
  }

  lemma EmptyInvariant()
    ensures Inv(EMPTY)
  {
  }

  function Next(w: World, e: Event): (w': World)
    requires Inv(w) && Enabled(w, e)
    ensures Inv(w')
  {
    StepKeepsInvariant(w, e);
    Act(w, e)
  }

  // ---------- Runs ----------

  ghost predicate Runs(w: World, es: seq<Event>)
    requires Inv(w)
    decreases es
  {
    es == [] || (Enabled(w, es[0]) && Runs(Next(w, es[0]), es[1..]))
  }

  ghost function Final(w: World, es: seq<Event>): (w': World)
    requires Inv(w) && Runs(w, es)
    ensures Inv(w')
    decreases es
  {
    if es == [] then w else Final(Next(w, es[0]), es[1..])
  }

  lemma {:induction false} ClockAdvances(w: World, es: seq<Event>)
    requires Inv(w) && Runs(w, es)
    ensures w.clock <= Final(w, es).clock
    decreases es
  {
    if es != [] {
      ReachedTimersAreLive(w, es[0]);
      ClockAdvances(Next(w, es[0]), es[1..]);
    }
  }

  // ---------- The discipline is what the invariant needs ----------

  // Scheduling a live timer keeps the invariant exactly when it is in neither heap nor queue
  // and the callback, if the timer needs one, is a fresh one.
  lemma ScheduleExact(w: World, id: nat, cb: nat, args: ScheduleArgs)
    requires Inv(w) && id in w.timers && ArgsOk(w.clock, args)
    ensures Inv(ScheduleTimer(w, id, cb, args)) <==>
              id !in w.heap && id !in InFlight(w.queues) && CallbackOffered(w, id, cb)
  {
    var w' := ScheduleTimer(w, id, cb, args);
    assert TimerOk(w, id);
    if CallbackOffered(w, id, cb) {
      CallbacksAfterScheduling(w, id, cb, args);
      OnlySubject(w, w', id);
    } else {
      CallbackTaken(w, id, cb, args);
    }
  }

  // Scheduling cannot give a timer a callback that is deleted or another timer's.
  lemma CallbackTaken(w: World, id: nat, cb: nat, args: ScheduleArgs)
    requires id in w.timers && ArgsOk(w.clock, args) && !CallbackOffered(w, id, cb)
    ensures !CallbacksOk(ScheduleTimer(w, id, cb, args))
  {
    var w' := ScheduleTimer(w, id, cb, args);
    if cb in w.deleted {
      assert !CallbackLive(w', id);
    } else {
      var a: nat :| Uses(w, a, cb);
      assert !CallbacksApart(w', a, id);
    }
  }

  // Stopping, deleting and restarting a live timer, taken for themselves, keep the invariant
  // exactly when no message of the timer is under way (for a stop: or the timer is
  // cancelled), and, for a restart, when the timer was scheduled before and is not an Idle
  // one still in the heap.
  lemma GuardsExact(w: World, id: nat)
    requires Inv(w) && id in w.timers
    ensures Inv(StopTimer(w, id)) <==> id !in InFlight(w.queues) || w.timers[id].pCb == None
    ensures Inv(Destroy(w, id)) <==> id !in InFlight(w.queues)
    ensures Inv(RestartTimer(w, id)) <==>
              && id !in InFlight(w.queues) && w.timers[id].kind != Invalid
              && (w.timers[id].state == Active || id !in w.heap)
  {
    assert TimerOk(w, id);
    StopExact(w, id);
    DestroyExact(w, id);
    RestartExact(w, id);
  }

  // A step that touches one timer and no callback of another keeps the invariant exactly
  // when it leaves that timer in order.
  lemma OnlySubject(w: World, w': World, id: nat)
    requires Inv(w) && |w'.queues| == MAX_TASKS && CallbacksOk(w')
    requires forall x: nat | x != id :: SameTimer(w, w', x)
    ensures Inv(w') <==> TimerOk(w', id)
  {
    if TimerOk(w', id) {
      forall x: nat ensures TimerOk(w', x) {
        if x != id {
          assert SameTimer(w, w', x);
          assert TimerOk(w, x);
        }
      }
    }
  }

  lemma StopExact(w: World, id: nat)
    requires Inv(w) && id in w.timers && TimerOk(w, id)
    ensures Inv(StopTimer(w, id)) <==> id !in InFlight(w.queues) || w.timers[id].pCb == None
  {
    CallbacksKept(w, StopTimer(w, id));
    OnlySubject(w, StopTimer(w, id), id);
  }

  lemma DestroyExact(w: World, id: nat)
    requires Inv(w) && id in w.timers && TimerOk(w, id)
    ensures Inv(Destroy(w, id)) <==> id !in InFlight(w.queues)
  {
    CallbackDeleted(w, Destroy(w, id), id);
    OnlySubject(w, Destroy(w, id), id);
  }

  lemma RestartExact(w: World, id: nat)
    requires Inv(w) && id in w.timers && TimerOk(w, id)
    ensures Inv(RestartTimer(w, id)) <==>
              && id !in InFlight(w.queues) && w.timers[id].kind != Invalid
              && (w.timers[id].state == Active || id !in w.heap)
  {
    CallbacksKept(w, RestartTimer(w, id));
    OnlySubject(w, RestartTimer(w, id), id);
  }

  // An absolute first time is met exactly when the member `first` happens to hold it; a
  // timer never scheduled before holds 0 there and is due at once.
  lemma AbsoluteFirstTime(w: World, e: Event)
    requires Inv(w) && Enabled(w, e) && e.Schedule? && e.args.firstIsAbsolute && !e.args.fuzzy
    ensures Next(w, e).timers[e.id].whenToFire == e.args.first <==> w.timers[e.id].first == e.args.first
    ensures w.timers[e.id].first == 0 ==> Due(Next(w, e), e.id)
  {
  }

  // A new timer asked to fire at time 1000 is due at time 0.
  lemma AbsoluteFirstTimeCounterexample()
    ensures var e := Schedule(0, 7, ScheduleArgs(1000, true, 0, false, OneShot, 0, false, 0));
            && Inv(EMPTY) && Enabled(EMPTY, New(0, 0))
            && var w := Next(EMPTY, New(0, 0));
            && Enabled(w, e)
            && Next(w, e).timers[0].whenToFire == 0 && Next(w, e).clock == 0 && Due(Next(w, e), 0)
  {
    EmptyInvariant();
  }
}
