/**
 Whole runs of the protocol: what can be observed of them, and what every disciplined run
 keeps.
 */
module ProtocolRuns {
  import opened Common
  import opened Protocol

  datatype Obs =
    | Fired(id: nat, task: nat, when: nat, at: nat)
    | Delivered(id: nat, queue: nat)
    | Triggered(id: nat, cb: nat)
    | FreedTimer(id: nat)
    | FreedCallback(cb: nat)

  function ObserveOwned(r: TimerRec): seq<Obs> {
    if r.pCb.Some? then [FreedCallback(r.pCb.value)] else []
  }

  function ObserveProcessing(r: TimerRec, id: nat): seq<Obs> {
    if r.kind == Invalid || r.pCb.None? then []
    else [Triggered(id, r.pCb.value)] + (if Rearms(r) then [] else ObserveOwned(r) + [FreedTimer(id)])
  }

  function Observe(w: World, e: Event): seq<Obs>
    requires Inv(w) && Enabled(w, e)
  {
    ReachedTimersAreLive(w, e);
    match e
    case Cancel(id) => ObserveOwned(w.timers[id])
    case Delete(id) => ObserveOwned(w.timers[id]) + [FreedTimer(id)]
    case Iterate(top) =>
      var r := w.timers[top];
      if Due(w, top) && r.state == Active then [Fired(top, r.task, r.whenToFire, w.clock)] else []
    case Deliver(q) =>
      var id := w.queues[q][0];
      [Delivered(id, q)] + ObserveProcessing(w.timers[id], id)
    case _ => []
  }

  ghost function Trace(w: World, es: seq<Event>): seq<Obs>
    requires Inv(w) && Runs(w, es)
    decreases es
  {
    if es == [] then [] else Observe(w, es[0]) + Trace(Next(w, es[0]), es[1..])
  }

  // ---------- Runs one after the other ----------

  lemma RunsCons(w: World, e: Event, rest: seq<Event>)
    requires Inv(w) && Enabled(w, e) && Runs(Next(w, e), rest)
    ensures Runs(w, [e] + rest) && Final(w, [e] + rest) == Final(Next(w, e), rest)
    ensures Trace(w, [e] + rest) == Observe(w, e) + Trace(Next(w, e), rest)
  {
    assert ([e] + rest)[1..] == rest;
  }

  lemma RunsTail(w: World, es: seq<Event>)
    requires Inv(w) && Runs(w, es) && es != []
    ensures Enabled(w, es[0]) && Runs(Next(w, es[0]), es[1..])
    ensures Final(w, es) == Final(Next(w, es[0]), es[1..])
    ensures Trace(w, es) == Observe(w, es[0]) + Trace(Next(w, es[0]), es[1..])
  {
  }

  lemma Uncons<T>(a: seq<T>, b: seq<T>)
    requires a != []
    ensures a + b == [a[0]] + (a[1..] + b)
  {
  }

  lemma Regroup<T>(a: seq<T>, b: seq<T>, c: seq<T>)
    ensures (a + b) + c == a + (b + c)
  {
  }

  lemma {:induction false} RunsConcat(w: World, a: seq<Event>, b: seq<Event>)
    requires Inv(w) && Runs(w, a) && Runs(Final(w, a), b)
    ensures Runs(w, a + b) && Final(w, a + b) == Final(Final(w, a), b)
    ensures Trace(w, a + b) == Trace(w, a) + Trace(Final(w, a), b)
    decreases a
  {
    if a == [] {
      assert [] + b == b;
    } else {
      var w' := Next(w, a[0]);
      RunsTail(w, a);
      RunsConcat(w', a[1..], b);
      RunsCons(w, a[0], a[1..] + b);
      Uncons(a, b);
      Regroup(Observe(w, a[0]), Trace(w', a[1..]), Trace(Final(w, a), b));
    }
  }

  /** What has been done and what has been seen. */
  datatype Log = Log(steps: seq<Event>, seen: seq<Obs>)

  function Did(l: Log, e: Event): Log {
    Log(l.steps + [e], l.seen)
  }

  function Saw(l: Log, o: seq<Obs>): Log {
    Log(l.steps, l.seen + o)
  }

  function Extend(l: Log, w: World, e: Event): Log
    requires Inv(w) && Enabled(w, e)
  {
    Saw(Did(l, e), Observe(w, e))
  }

  lemma SawTwice(l: Log, a: seq<Obs>, b: seq<Obs>)
    ensures Saw(Saw(l, a), b) == Saw(l, a + b)
  {
    Regroup(l.seen, a, b);
  }

  /** In every iteration of the run the timer task looks at a least timer. */
  ghost predicate OnTop(w: World, es: seq<Event>)
    requires Inv(w) && Runs(w, es)
    decreases es
  {
    es == [] || ((es[0].Iterate? ==> IsTop(w, es[0].top)) && OnTop(Next(w, es[0]), es[1..]))
  }

  lemma OnTopCons(w: World, e: Event, rest: seq<Event>)
    requires Inv(w) && Enabled(w, e) && (e.Iterate? ==> IsTop(w, e.top))
    requires Runs(Next(w, e), rest) && OnTop(Next(w, e), rest)
    ensures Runs(w, [e] + rest) && OnTop(w, [e] + rest)
  {
    RunsCons(w, e, rest);
    assert ([e] + rest)[1..] == rest;
  }

  lemma {:induction false} OnTopConcat(w: World, a: seq<Event>, b: seq<Event>)
    requires Inv(w) && Runs(w, a) && OnTop(w, a) && Runs(Final(w, a), b) && OnTop(Final(w, a), b)
    ensures Runs(w, a + b) && OnTop(w, a + b)
    decreases a
  {
    if a == [] {
      assert [] + b == b;
    } else {
      RunsTail(w, a);
      OnTopConcat(Next(w, a[0]), a[1..], b);
      OnTopCons(w, a[0], a[1..] + b);
      Uncons(a, b);
    }
  }

  /** The steps of the log lead from the start to w, and show what the log says. */
  ghost predicate Chronicle(l: Log, w: World) {
    && Inv(EMPTY) && Runs(EMPTY, l.steps) && OnTop(EMPTY, l.steps)
    && Final(EMPTY, l.steps) == w && Trace(EMPTY, l.steps) == l.seen
  }

  lemma OneStep(w: World, e: Event)
    requires Inv(w) && Enabled(w, e)
    ensures Runs(w, [e]) && Final(w, [e]) == Next(w, e) && Trace(w, [e]) == Observe(w, e)
  {
    RunsCons(w, e, []);
  }

  lemma ChronicleStep(l: Log, w: World, e: Event)
    requires Chronicle(l, w) && Inv(w) && Enabled(w, e) && (e.Iterate? ==> IsTop(w, e.top))
    ensures Chronicle(Extend(l, w, e), Next(w, e))
  {
    OneStep(w, e);
    OnTopCons(w, e, []);
    OnTopConcat(EMPTY, l.steps, [e]);
    RunsConcat(EMPTY, l.steps, [e]);
  }

  lemma NothingSeen(w: World, e: Event)
    requires Inv(w) && Enabled(w, e) && !e.Deliver? && !e.Cancel? && !e.Delete? && !e.Iterate?
    ensures Observe(w, e) == [] && Next(w, e).deleted == w.deleted
  {
  }

  lemma QuietStep(l: Log, w: World, e: Event)
    requires Chronicle(l, w) && Inv(w) && Enabled(w, e)
    requires !e.Deliver? && !e.Cancel? && !e.Delete? && !e.Iterate?
    ensures Chronicle(Did(l, e), Next(w, e)) && Extend(l, w, e) == Did(l, e)
  {
    NothingSeen(w, e);
    ChronicleStep(l, w, e);
    assert l.seen + [] == l.seen;
  }

  lemma StopStep(l: Log, w: World, id: nat)
    requires Chronicle(l, w) && Inv(w) && Enabled(w, Stop(id))
    ensures Chronicle(Did(l, Stop(id)), StopTimer(w, id)) && Extend(l, w, Stop(id)) == Did(l, Stop(id))
    ensures Next(w, Stop(id)) == StopTimer(w, id)
  {
    QuietStep(l, w, Stop(id));
  }

  // ---------- What every disciplined run keeps ----------

  lemma {:induction false} BagWithinSet(m: multiset<nat>, s: set<nat>)
    requires forall x | x in m :: x in s && m[x] == 1
    ensures |m| <= |s|
    decreases |m|
  {
    if m != multiset{} {
      var x :| x in m;
      var m' := m - multiset{x};
      assert forall y | y in m' :: y in m && y != x;
      BagWithinSet(m', s - {x});
    }
  }

  lemma {:induction false} SlotCount(s: set<nat>, n: nat)
    requires forall x | x in s :: x < n
    ensures |s| <= n
    decreases n
  {
    if n > 0 {
      SlotCount(s - {n - 1}, n - 1);
    } else {
      assert s == {};
    }
  }

  // In every run: a timer is at most once in heap and queues together; heap entries and
  // messages name live slots; a timer in the heap is Active, or Idle and cancelled, so the
  // timer task never meets a Done one; and the heap fits its array.
  lemma EveryRun(es: seq<Event>)
    requires Inv(EMPTY) && Runs(EMPTY, es)
    ensures var w := Final(EMPTY, es);
            && (forall id: nat :: w.heap[id] + InFlight(w.queues)[id] <= 1)
            && (forall id: nat | id in w.heap || id in InFlight(w.queues) ::
                  id in w.timers && id < MAX_NUMBER_OF_TIMERS && w.timers[id].kind != Invalid)
            && (forall id: nat | id in w.heap ::
                  w.timers[id].state == Active || (w.timers[id].state == Idle && w.timers[id].pCb == None))
            && (forall q, id: nat | 0 <= q < MAX_TASKS && id in w.queues[q] ::
                  id in w.timers && w.timers[id].task == q)
            && |w.heap| <= |w.timers| <= MAX_NUMBER_OF_TIMERS
  {
    var w := Final(EMPTY, es);
    HeapFits(w);
    forall id: nat
      ensures w.heap[id] + InFlight(w.queues)[id] <= 1
      ensures id in w.heap || id in InFlight(w.queues) ==>
                id in w.timers && id < MAX_NUMBER_OF_TIMERS && w.timers[id].kind != Invalid
      ensures id in w.heap ==>
                w.timers[id].state == Active || (w.timers[id].state == Idle && w.timers[id].pCb == None)
    {
      assert TimerOk(w, id);
    }
    forall q, id: nat | 0 <= q < MAX_TASKS && id in w.queues[q]
      ensures id in w.timers && w.timers[id].task == q
    {
      MessageNamesTimer(w, q, id);
    }
  }

  lemma MessageNamesTimer(w: World, q: nat, id: nat)
    requires Inv(w) && q < MAX_TASKS && id in w.queues[q]
    ensures id in w.timers && w.timers[id].task == q
  {
    assert TimerOk(w, id);
    assert id in multiset(w.queues[q]);
  }

  lemma HeapFits(w: World)
    requires Inv(w)
    ensures |w.heap| <= |w.timers| <= MAX_NUMBER_OF_TIMERS
  {
    forall x | x in w.heap ensures x in w.timers.Keys && w.heap[x] == 1 {
      assert TimerOk(w, x);
    }
    BagWithinSet(w.heap, w.timers.Keys);
    forall x | x in w.timers.Keys ensures x < MAX_NUMBER_OF_TIMERS {
      assert TimerOk(w, x);
    }
    SlotCount(w.timers.Keys, MAX_NUMBER_OF_TIMERS);
    assert |w.timers.Keys| == |w.timers|;
  }

  // Room for one more: a live timer outside the heap leaves a free heap slot.
  lemma HeapHasRoom(w: World, id: nat)
    requires Inv(w) && id in w.timers && id !in w.heap
    ensures |w.heap| < MAX_NUMBER_OF_TIMERS
  {
    forall x | x in w.heap ensures x in w.timers.Keys - {id} && w.heap[x] == 1 {
      assert TimerOk(w, x);
    }
    BagWithinSet(w.heap, w.timers.Keys - {id});
    HeapFits(w);
    assert |w.timers.Keys| == |w.timers|;
  }

  // The timer of the oldest message is live and outside the heap, and the heap has room.
  lemma HeadMessage(w: World, q: nat)
    requires Inv(w) && q < MAX_TASKS && w.queues[q] != []
    ensures var id := w.queues[q][0];
            && id in w.timers && id < MAX_NUMBER_OF_TIMERS && id !in w.heap
            && w.timers[id].kind != Invalid
            && |w.heap| < MAX_NUMBER_OF_TIMERS
  {
    var id := w.queues[q][0];
    assert TimerOk(w, id);
    assert id in multiset(w.queues[q]);
    HeapHasRoom(w, id);
  }

  // ---------- Callbacks ----------

  predicate About(o: Obs, cb: nat) {
    o == FreedCallback(cb) || (o.Triggered? && o.cb == cb)
  }

  /** No callback is run or deleted after it has been deleted. */
  ghost predicate CallbackSafe(tr: seq<Obs>) {
    forall i, j | 0 <= i < j < |tr| && tr[i].FreedCallback? :: !About(tr[j], tr[i].cb)
  }

  lemma SafeConcat(a: seq<Obs>, b: seq<Obs>)
    requires CallbackSafe(a) && CallbackSafe(b)
    requires forall o, p | o in a && o.FreedCallback? && p in b :: !About(p, o.cb)
    ensures CallbackSafe(a + b)
  {
    var t := a + b;
    forall i, j | 0 <= i < j < |t| && t[i].FreedCallback? ensures !About(t[j], t[i].cb) {
      if i < |a| && j >= |a| {
        assert t[i] in a && t[j] in b;
      }
    }
  }

  /** Observations o of a step after which the callbacks deleted are no longer `before` but
      `after`: no callback is run or deleted after it has been deleted. */
  ghost predicate Respects(o: seq<Obs>, before: set<nat>, after: set<nat>) {
    && (forall x | x in o && (x.FreedCallback? || x.Triggered?) :: x.cb !in before)
    && (forall x | x in o && x.FreedCallback? :: x.cb in after)
    && before <= after
    && CallbackSafe(o)
  }

  lemma ProcessedCallbacks(w: World, id: nat)
    requires id in w.timers && CallbackLive(w, id)
    ensures Respects(ObserveProcessing(w.timers[id], id), w.deleted, ProcessCallback(w, id).deleted)
  {
  }

  lemma DeliveredCallbacks(w: World, e: Event)
    requires Inv(w) && Enabled(w, e) && e.Deliver?
    ensures Respects(Observe(w, e), w.deleted, Next(w, e).deleted)
  {
    ReachedTimersAreLive(w, e);
    var id := w.queues[e.queue][0];
    var v := w.(queues := w.queues[e.queue := w.queues[e.queue][1..]]);
    assert CallbackLive(w, id);
    ProcessedCallbacks(v, id);
    SafeConcat([Delivered(id, e.queue)], ObserveProcessing(w.timers[id], id));
  }

  lemma OwnedCallbacks(w: World, id: nat)
    requires id in w.timers && CallbackLive(w, id)
    ensures var r := w.timers[id];
            && Respects(ObserveOwned(r), w.deleted, w.deleted + Owned(r))
            && Respects(ObserveOwned(r) + [FreedTimer(id)], w.deleted, w.deleted + Owned(r))
  {
  }

  lemma NoCallbacks(w: World, e: Event)
    requires Inv(w) && Enabled(w, e) && !e.Deliver? && !e.Cancel? && !e.Delete?
    ensures forall o | o in Observe(w, e) :: o.Fired?
    ensures Next(w, e).deleted == w.deleted
  {
    if e.Iterate? {
      ReachedTimersAreLive(w, e);
    } else {
      NothingSeen(w, e);
    }
  }

  lemma ObservedCallbacks(w: World, e: Event)
    requires Inv(w) && Enabled(w, e)
    ensures Respects(Observe(w, e), w.deleted, Next(w, e).deleted)
  {
    if e.Deliver? {
      DeliveredCallbacks(w, e);
    } else if e.Cancel? || e.Delete? {
      assert CallbackLive(w, e.id);
      OwnedCallbacks(w, e.id);
    } else {
      NoCallbacks(w, e);
    }
  }

  lemma {:induction false} DeletedCallbacksSilent(w: World, es: seq<Event>, cb: nat)
    requires Inv(w) && Runs(w, es) && cb in w.deleted
    ensures forall o | o in Trace(w, es) :: !About(o, cb)
    decreases es
  {
    if es != [] {
      ObservedCallbacks(w, es[0]);
      DeletedCallbacksSilent(Next(w, es[0]), es[1..], cb);
    }
  }

  // In every run from a state the discipline allows, no callback object is deleted twice,
  // and none is triggered after it was deleted.
  lemma {:induction false} CallbacksFreedOnce(w: World, es: seq<Event>)
    requires Inv(w) && Runs(w, es)
    ensures CallbackSafe(Trace(w, es))
    decreases es
  {
    if es != [] {
      var w' := Next(w, es[0]);
      ObservedCallbacks(w, es[0]);
      CallbacksFreedOnce(w', es[1..]);
      forall o, p | o in Observe(w, es[0]) && o.FreedCallback? && p in Trace(w', es[1..])
        ensures !About(p, o.cb)
      {
        DeletedCallbacksSilent(w', es[1..], o.cb);
      }
      SafeConcat(Observe(w, es[0]), Trace(w', es[1..]));
    }
  }

  // ---------- Message order ----------

  function FiredTo(tr: seq<Obs>, q: nat): seq<nat> {
    if tr == [] then []
    else (if tr[0].Fired? && tr[0].task == q then [tr[0].id] else []) + FiredTo(tr[1..], q)
  }

  function DeliveredTo(tr: seq<Obs>, q: nat): seq<nat> {
    if tr == [] then []
    else (if tr[0].Delivered? && tr[0].queue == q then [tr[0].id] else []) + DeliveredTo(tr[1..], q)
  }

  lemma {:induction false} FiredToConcat(a: seq<Obs>, b: seq<Obs>, q: nat)
    ensures FiredTo(a + b, q) == FiredTo(a, q) + FiredTo(b, q)
  {
    if a == [] {
      assert a + b == b;
    } else {
      assert (a + b)[1..] == a[1..] + b;
      FiredToConcat(a[1..], b, q);
    }
  }

  lemma {:induction false} DeliveredToConcat(a: seq<Obs>, b: seq<Obs>, q: nat)
    ensures DeliveredTo(a + b, q) == DeliveredTo(a, q) + DeliveredTo(b, q)
  {
    if a == [] {
      assert a + b == b;
    } else {
      assert (a + b)[1..] == a[1..] + b;
      DeliveredToConcat(a[1..], b, q);
    }
  }

  lemma {:induction false} NoMessages(tr: seq<Obs>, q: nat)
    requires forall o | o in tr :: !o.Fired? && !o.Delivered?
    ensures FiredTo(tr, q) == [] && DeliveredTo(tr, q) == []
  {
    if tr != [] {
      NoMessages(tr[1..], q);
    }
  }

  /** What was queued for task q or is fired to it is what it receives or finds queued. */
  ghost predicate Conserves(w: World, w': World, o: seq<Obs>, q: nat)
    requires q < |w.queues| && q < |w'.queues|
  {
    w.queues[q] + FiredTo(o, q) == DeliveredTo(o, q) + w'.queues[q]
  }

  lemma DeliverConserves(w: World, w': World, r: TimerRec, p: nat, q: nat)
    requires p < |w.queues| && q < |w.queues| && w.queues[p] != []
    requires w'.queues == w.queues[p := w.queues[p][1..]]
    ensures var id := w.queues[p][0]; Conserves(w, w', [Delivered(id, p)] + ObserveProcessing(r, id), q)
  {
    var id := w.queues[p][0];
    var o := ObserveProcessing(r, id);
    NoMessages(o, q);
    assert ([Delivered(id, p)] + o)[1..] == o;
  }

  lemma DeliverMessages(w: World, e: Event, q: nat)
    requires Inv(w) && Enabled(w, e) && q < MAX_TASKS && e.Deliver?
    ensures Conserves(w, Next(w, e), Observe(w, e), q)
  {
    ReachedTimersAreLive(w, e);
    assert Next(w, e).queues == w.queues[e.queue := w.queues[e.queue][1..]];
    DeliverConserves(w, Next(w, e), w.timers[w.queues[e.queue][0]], e.queue, q);
  }

  lemma IterationMessages(w: World, top: nat, o: seq<Obs>, q: nat)
    requires |w.queues| == MAX_TASKS && top in w.timers && w.timers[top].task < MAX_TASKS && q < MAX_TASKS
    requires var r := w.timers[top];
             o == if Due(w, top) && r.state == Active then [Fired(top, r.task, r.whenToFire, w.clock)] else []
    ensures DeliveredTo(o, q) == []
    ensures IterateOn(w, top).queues[q] == w.queues[q] + FiredTo(o, q)
  {
    if o != [] {
      assert o[1..] == [];
    }
  }

  lemma IterateMessages(w: World, e: Event, q: nat)
    requires Inv(w) && Enabled(w, e) && q < MAX_TASKS && e.Iterate?
    ensures DeliveredTo(Observe(w, e), q) == []
    ensures Next(w, e).queues[q] == w.queues[q] + FiredTo(Observe(w, e), q)
    ensures Conserves(w, Next(w, e), Observe(w, e), q)
  {
    ReachedTimersAreLive(w, e);
    IterationMessages(w, e.top, Observe(w, e), q);
    assert w.queues[q] + FiredTo(Observe(w, e), q) == [] + Next(w, e).queues[q];
  }

  lemma CallsSendNothing(w: World, e: Event)
    requires Inv(w) && Enabled(w, e) && !e.Iterate? && !e.Deliver?
    ensures forall o | o in Observe(w, e) :: !o.Fired? && !o.Delivered?
  {
  }

  lemma OtherMessages(w: World, e: Event, q: nat)
    requires Inv(w) && Enabled(w, e) && q < MAX_TASKS && !e.Iterate? && !e.Deliver?
    ensures Conserves(w, Next(w, e), Observe(w, e), q)
  {
    var o := Observe(w, e);
    CallsSendNothing(w, e);
    NoMessages(o, q);
    assert Next(w, e).queues == w.queues;
    assert w.queues[q] + [] == [] + w.queues[q];
  }

  lemma MessageStep(w: World, e: Event, q: nat)
    requires Inv(w) && Enabled(w, e) && q < MAX_TASKS
    ensures Conserves(w, Next(w, e), Observe(w, e), q)
  {
    if e.Deliver? {
      DeliverMessages(w, e, q);
    } else if e.Iterate? {
      IterateMessages(w, e, q);
    } else {
      OtherMessages(w, e, q);
    }
  }

  lemma Conserved<T>(q0: seq<T>, f1: seq<T>, d1: seq<T>, q1: seq<T>, f2: seq<T>, d2: seq<T>, q2: seq<T>)
    requires q0 + f1 == d1 + q1 && q1 + f2 == d2 + q2
    ensures q0 + (f1 + f2) == (d1 + d2) + q2
  {
    assert q0 + (f1 + f2) == (q0 + f1) + f2;
    assert (d1 + q1) + f2 == d1 + (q1 + f2);
    assert d1 + (d2 + q2) == (d1 + d2) + q2;
  }

  // In every run each task receives exactly the expiry messages that were sent to it, in
  // the order of firing: what was queued and fired is what was delivered and is queued.
  lemma {:induction false} MessagesInOrder(w: World, es: seq<Event>, q: nat)
    requires Inv(w) && Runs(w, es) && q < MAX_TASKS
    ensures Conserves(w, Final(w, es), Trace(w, es), q)
    decreases es
  {
    if es != [] {
      var w' := Next(w, es[0]);
      var a, b := Observe(w, es[0]), Trace(w', es[1..]);
      MessageStep(w, es[0], q);
      MessagesInOrder(w', es[1..], q);
      FiredToConcat(a, b, q);
      DeliveredToConcat(a, b, q);
      Conserved(w.queues[q], FiredTo(a, q), DeliveredTo(a, q), w'.queues[q],
                FiredTo(b, q), DeliveredTo(b, q), Final(w, es).queues[q]);
    }
  }

  lemma MessagesFromStart(es: seq<Event>, q: nat)
    requires Inv(EMPTY) && Runs(EMPTY, es) && q < MAX_TASKS
    ensures FiredTo(Trace(EMPTY, es), q) == DeliveredTo(Trace(EMPTY, es), q) + Final(EMPTY, es).queues[q]
  {
    MessagesInOrder(EMPTY, es, q);
    assert EMPTY.queues[q] == [];
    assert [] + FiredTo(Trace(EMPTY, es), q) == FiredTo(Trace(EMPTY, es), q);
  }

  // ---------- A run that removes from an empty heap ----------

  lemma NewThenSchedule(id: nat, task: nat, cb: nat, args: ScheduleArgs)
    requires id < MAX_NUMBER_OF_TIMERS && task < MAX_TASKS && ArgsOk(0, args)
    ensures Inv(EMPTY) && Enabled(EMPTY, New(id, task))
    ensures var w := Next(EMPTY, New(id, task));
            && Enabled(w, Schedule(id, cb, args))
            && Next(w, Schedule(id, cb, args)).heap == multiset{id}
            && Next(w, Schedule(id, cb, args)).timers.Keys == {id}
            && Next(w, Schedule(id, cb, args)).timers[id].kind != Invalid
            && InFlight(Next(w, Schedule(id, cb, args)).queues) == multiset{}
  {
    EmptyInvariant();
  }

  lemma StopOfOnly(w: World, id: nat)
    requires Inv(w) && w.timers.Keys == {id} && w.heap == multiset{id} && InFlight(w.queues) == multiset{}
    ensures Enabled(w, Stop(id))
    ensures var w' := Next(w, Stop(id));
            && Enabled(w', Delete(id)) && w'.heap == multiset{}
            && w'.timers[id].kind == w.timers[id].kind && w'.timers[id].state == Idle
  {
  }

  // New, schedule, stop and delete of the only timer keep to the discipline, and the delete
  // removes the timer from the heap a second time, when nothing is in it: it was scheduled,
  // and is not Done. As the code is written, that removal reads outside the heap array.
  lemma DeleteAfterStop(id: nat, task: nat, cb: nat, args: ScheduleArgs)
    requires id < MAX_NUMBER_OF_TIMERS && task < MAX_TASKS && ArgsOk(0, args)
    ensures Inv(EMPTY) && Runs(EMPTY, [New(id, task), Schedule(id, cb, args), Stop(id)])
    ensures var w := Final(EMPTY, [New(id, task), Schedule(id, cb, args), Stop(id)]);
            && Enabled(w, Delete(id)) && w.heap == multiset{}
            && w.timers[id].kind != Invalid && w.timers[id].state != Done
  {
    NewThenSchedule(id, task, cb, args);
    var w1 := Next(EMPTY, New(id, task));
    var w2 := Next(w1, Schedule(id, cb, args));
    StopOfOnly(w2, id);
    OneStep(w2, Stop(id));
    RunsCons(w1, Schedule(id, cb, args), [Stop(id)]);
    RunsCons(EMPTY, New(id, task), [Schedule(id, cb, args), Stop(id)]);
    assert [Schedule(id, cb, args)] + [Stop(id)] == [Schedule(id, cb, args), Stop(id)];
    assert [New(id, task)] + [Schedule(id, cb, args), Stop(id)] == [New(id, task), Schedule(id, cb, args), Stop(id)];
  }
}
