/**
 The service on the heap array exactly as the code leaves it, without the repairs: when a
 step is the step of the protocol, and what happens when it is not.

 The order of the array may be lost, and the protocol does not ask for it; what it does ask
 for is that a removal takes out its timer. So everything proved of all runs of the protocol
 holds of the code as written up to the first removal that does not.
 */
module WrittenEngine {
  import opened Common
  import opened HeapOrder
  import opened HeapSearch
  import opened TimerUtils
  import opened Protocol
  import opened ProtocolRuns
  import WH = WrittenHeap

  /** The fields, queues and clock as a world; the heap of the world is what the array holds. */
  datatype Machine = Machine(w: World, a: WH.HeapArray<nat>)

  ghost predicate Coupled(m: Machine) {
    && WH.ArrayOk(m.a) && |m.a.slots| == MAX_NUMBER_OF_TIMERS && m.w.heap == WH.Bag(m.a)
    && Keyed(m.a.entries, m.w)
  }

  /** Entries show the firing times of their timers. */
  ghost predicate Keyed(s: seq<Entry<nat>>, w: World) {
    forall i | 0 <= i < |s| && s[i].timer in w.timers :: s[i].when == w.timers[s[i].timer].whenToFire
  }

  // ---------- What a step does to the array ----------

  predicate LeavesOnDestroy(r: TimerRec) {
    r.kind != Invalid && r.state != Done
  }

  /** The timer a step asks to be removed from the heap, if any. */
  function Removes(w: World, e: Event): Option<nat>
    requires Reaches(w, e)
  {
    match e
    case Stop(id) => Some(id)
    case Restart(id) => if w.timers[id].state == Active then Some(id) else None
    case Delete(id) => if LeavesOnDestroy(w.timers[id]) then Some(id) else None
    case Iterate(top) => if Due(w, top) && w.timers[top].state != Done then Some(top) else None
    case Deliver(q) =>
      var id := w.queues[q][0];
      var r := w.timers[id];
      if r.kind != Invalid && r.pCb.Some? && !Rearms(r) && LeavesOnDestroy(r) then Some(id) else None
    case _ => None
  }

  /** The timer a step adds to the heap, with its new firing time, if any. */
  function Adds(w: World, e: Event): Option<Entry<nat>>
    requires Reaches(w, e)
  {
    match e
    case Schedule(id, _, args) => Some(Entry(id, FirstFiring(w.clock, w.timers[id], args)))
    case Restart(id) => Some(Entry(id, TimeoutToAbsolute(w.clock, w.timers[id].timeout)))
    case Iterate(top) =>
      if Due(w, top) && w.timers[top].state == Idle
      then Some(Entry(top, TimeoutToAbsolute(w.clock, w.timers[top].timeout))) else None
    case Deliver(q) =>
      var id := w.queues[q][0];
      var r := w.timers[id];
      if r.kind != Invalid && r.pCb.Some? && Rearms(r)
      then Some(Entry(id, TimeoutToAbsolute(w.clock, r.timeout))) else None
    case _ => None
  }

  ghost function Removed(a: WH.HeapArray<nat>, id: Option<nat>): (r: Option<WH.HeapArray<nat>>)
    requires WH.ArrayOk(a)
    ensures r.Some? ==> WH.ArrayOk(r.value) && |r.value.slots| == |a.slots|
  {
    if id.None? then Some(a)
    else
      WH.StepExact(a, WH.Remove(id.value));
      WH.Step(a, WH.Remove(id.value))
  }

  /** The firing time is set in the timer, wherever it is, and the timer is added. */
  ghost function SetAndAdded(a: WH.HeapArray<nat>, e: Option<Entry<nat>>): (r: Option<WH.HeapArray<nat>>)
    requires WH.ArrayOk(a)
    ensures r.Some? ==> WH.ArrayOk(r.value) && |r.value.slots| == |a.slots|
  {
    if e.None? then Some(a)
    else
      var key := WH.SetKey(e.value.timer, e.value.when);
      WH.StepExact(a, key);
      var a' := WH.Step(a, key).value;
      WH.StepExact(a', WH.Add(e.value));
      WH.Step(a', WH.Add(e.value))
  }

  ghost function Changed(a: WH.HeapArray<nat>, rem: Option<nat>, add: Option<Entry<nat>>)
    : (r: Option<WH.HeapArray<nat>>)
    requires WH.ArrayOk(a)
    ensures r.Some? ==> WH.ArrayOk(r.value) && |r.value.slots| == |a.slots|
  {
    var a1 := Removed(a, rem);
    if a1.None? then None else SetAndAdded(a1.value, add)
  }

  /** What the timer task has in slot 0 is what it looks at. */
  predicate Fits(m: Machine, e: Event) {
    && Reaches(m.w, e)
    && (e.Iterate? ==> m.a.entries != [] && m.a.entries[0].timer == e.top)
  }

  /** None when the code goes outside the array. */
  ghost function Step(m: Machine, e: Event): Option<Machine>
    requires Fits(m, e) && WH.ArrayOk(m.a)
  {
    var a := Changed(m.a, Removes(m.w, e), Adds(m.w, e));
    if a.None? then None else Some(Machine(Effect(m.w, e).(heap := WH.Bag(a.value)), a.value))
  }

  /** The removal the step asks for misses its timer, takes another, or goes outside the
      array. */
  predicate Amiss(m: Machine, e: Event)
    requires Reaches(m.w, e)
  {
    !Takes(m.a, Removes(m.w, e))
  }

  /** The removal, if any, finds its timer or rightly nothing. */
  predicate Takes(a: WH.HeapArray<nat>, rem: Option<nat>) {
    rem.None? ||
    var op := WH.Remove(rem.value);
    !WH.Missed(a, op) && !WH.Strayed(a, op) && !WH.Faults(a, op)
  }

  // ---------- When it is the step of the protocol ----------

  function Less(m: multiset<nat>, id: Option<nat>): multiset<nat> {
    if id.Some? then m - multiset{id.value} else m
  }

  function More(m: multiset<nat>, e: Option<Entry<nat>>): multiset<nat> {
    if e.Some? then m + multiset{e.value.timer} else m
  }

  lemma HeapOfIteration(w: World, top: nat)
    requires |w.queues| == MAX_TASKS && top in w.timers && w.timers[top].task < MAX_TASKS
    ensures IterateOn(w, top).heap ==
              if !Due(w, top) || w.timers[top].state == Done then w.heap
              else if w.timers[top].state == Active then w.heap - multiset{top}
              else w.heap - multiset{top} + multiset{top}
  {
  }

  lemma HeapOfTop(w: World, top: nat)
    requires Reaches(w, Iterate(top))
    ensures IterateOn(w, top).heap == More(Less(w.heap, Removes(w, Iterate(top))), Adds(w, Iterate(top)))
  {
    HeapOfIteration(w, top);
    var rem, add := Removes(w, Iterate(top)), Adds(w, Iterate(top));
    if !Due(w, top) || w.timers[top].state == Done {
      assert rem == None && add == None;
    } else if w.timers[top].state == Active {
      assert rem == Some(top) && add == None;
    } else {
      assert rem == Some(top) && add.Some? && add.value.timer == top;
    }
  }

  lemma HeapOfDelivery(w: World, q: nat)
    requires Reaches(w, Deliver(q))
    ensures DeliverFrom(w, q).heap == More(Less(w.heap, Removes(w, Deliver(q))), Adds(w, Deliver(q)))
  {
  }

  lemma HeapOfCall(w: World, e: Event)
    requires Reaches(w, e) && !e.Iterate? && !e.Deliver?
    ensures Effect(w, e).heap == More(Less(w.heap, Removes(w, e)), Adds(w, e))
  {
    if e.Restart? || e.Schedule? {
      assert Adds(w, e).Some? && Adds(w, e).value.timer == e.id;
    } else {
      assert Adds(w, e) == None;
    }
  }

  // In the protocol the heap loses what the step removes and gains what it adds.
  lemma HeapOfEffect(w: World, e: Event)
    requires Reaches(w, e)
    ensures Effect(w, e).heap == More(Less(w.heap, Removes(w, e)), Adds(w, e))
  {
    match e
    case Iterate(top) => HeapOfTop(w, top);
    case Deliver(q) => HeapOfDelivery(w, q);
    case _ => HeapOfCall(w, e);
  }

  lemma DeliveredIsOut(w: World, q: nat)
    requires Inv(w) && Enabled(w, Deliver(q)) && w.queues[q][0] in w.timers
    ensures var r := w.timers[w.queues[q][0]]; r.pCb.Some? ==> r.state == Done
  {
    assert TimerOk(w, w.queues[q][0]);
    assert w.queues[q][0] in multiset(w.queues[q]);
  }

  lemma RemovedExact(a: WH.HeapArray<nat>, id: nat)
    requires WH.ArrayOk(a)
    ensures var op, r := WH.Remove(id), Removed(a, Some(id));
            && (r.None? <==> WH.Faults(a, op))
            && (r.Some? ==> (WH.Bag(r.value) == Less(WH.Bag(a), Some(id)) <==> !WH.Missed(a, op) && !WH.Strayed(a, op)))
            && (r.Some? ==> |r.value.entries| <= |a.entries|)
  {
    var op := WH.Remove(id);
    WH.StepExact(a, op);
    if WH.Step(a, op).Some? {
      BagSize(a);
      BagSize(WH.Step(a, op).value);
    }
  }

  lemma BagSize(a: WH.HeapArray<nat>)
    ensures |WH.Bag(a)| == |a.entries|
  {
  }

  lemma AddedExact(a: WH.HeapArray<nat>, e: Option<Entry<nat>>)
    requires WH.ArrayOk(a)
    ensures var r := SetAndAdded(a, e);
            && (r.None? <==> e.Some? && |a.entries| == |a.slots|)
            && (r.Some? ==> WH.Bag(r.value) == More(WH.Bag(a), e))
  {
    if e.Some? {
      WH.StepExact(a, WH.SetKey(e.value.timer, e.value.when));
      var a' := WH.Step(a, WH.SetKey(e.value.timer, e.value.when)).value;
      WH.StepExact(a', WH.Add(e.value));
    }
  }

  lemma SameMore(a: multiset<nat>, b: multiset<nat>, e: Option<Entry<nat>>)
    ensures More(a, e) == More(b, e) <==> a == b
  {
    if e.Some? && More(a, e) == More(b, e) {
      WH.PlusOne(a, b, e.value.timer);
    }
  }

  lemma TakesExact(a: WH.HeapArray<nat>, rem: Option<nat>)
    requires WH.ArrayOk(a)
    ensures var r := Removed(a, rem);
            && (r.Some? && WH.Bag(r.value) == Less(WH.Bag(a), rem) <==> Takes(a, rem))
            && (r.Some? ==> |r.value.entries| <= |a.entries|)
  {
    if rem.Some? {
      RemovedExact(a, rem.value);
    }
  }

  /** What is to be added finds room in the array, at the latest once the removal is done. */
  ghost predicate Room(a: WH.HeapArray<nat>, rem: Option<nat>, add: Option<Entry<nat>>) {
    add.Some? ==> |a.entries| < |a.slots| || (rem.Some? && rem.value in WH.Bag(a))
  }

  lemma ChangedExact(a: WH.HeapArray<nat>, rem: Option<nat>, add: Option<Entry<nat>>)
    requires WH.ArrayOk(a) && Room(a, rem, add)
    ensures var r := Changed(a, rem, add);
            (r.Some? && WH.Bag(r.value) == More(Less(WH.Bag(a), rem), add)) <==> Takes(a, rem)
  {
    TakesExact(a, rem);
    var a1 := Removed(a, rem);
    if a1.Some? {
      BagSize(a);
      BagSize(a1.value);
      AddedExact(a1.value, add);
      SameMore(WH.Bag(a1.value), Less(WH.Bag(a), rem), add);
    }
  }

  lemma SameHeap(w: World, h: multiset<nat>)
    ensures w.(heap := h) == w <==> h == w.heap
  {
  }

  // A step on the array has the outcome of the protocol's exactly when no removal in it goes
  // amiss.
  lemma StepExact(m: Machine, e: Event)
    requires WH.ArrayOk(m.a) && m.w.heap == WH.Bag(m.a) && Fits(m, e)
    requires Room(m.a, Removes(m.w, e), Adds(m.w, e))
    ensures (Step(m, e).Some? && Step(m, e).value.w == Effect(m.w, e)) <==> !Amiss(m, e)
  {
    var rem, add := Removes(m.w, e), Adds(m.w, e);
    HeapOfEffect(m.w, e);
    ChangedExact(m.a, rem, add);
    var a := Changed(m.a, rem, add);
    if a.Some? {
      SameHeap(Effect(m.w, e), WH.Bag(a.value));
    }
  }

  // In a state the discipline allows there always is room.
  lemma RoomFor(m: Machine, e: Event)
    requires Inv(m.w) && Coupled(m) && Enabled(m.w, e) && Fits(m, e)
    ensures Room(m.a, Removes(m.w, e), Adds(m.w, e))
  {
    var add := Adds(m.w, e);
    if add.Some? {
      var id := add.value.timer;
      assert TimerOk(m.w, id);
      if id !in m.w.heap {
        HeapHasRoom(m.w, id);
        BagSize(m.a);
      } else {
        AddedFromHeap(m.w, e);
      }
    }
  }

  // A timer added from within the heap is removed first.
  lemma AddedFromHeap(w: World, e: Event)
    requires Inv(w) && Enabled(w, e) && Reaches(w, e)
    requires Adds(w, e).Some? && Adds(w, e).value.timer in w.heap
    ensures Removes(w, e) == Some(Adds(w, e).value.timer)
  {
    assert TimerOk(w, Adds(w, e).value.timer);
    if e.Deliver? {
      HeadMessage(w, e.queue);
    }
  }

  // ---------- Firing times in the array ----------

  lemma RemovedFrom(a: WH.HeapArray<nat>, id: nat)
    requires WH.ArrayOk(a) && Removed(a, Some(id)).Some?
    ensures forall x | x in Removed(a, Some(id)).value.entries :: x in a.entries
  {
    WH.FoundInReach(a, id);
    var k := SearchWritten(a.slots, |a.entries|, id, 0);
    if k.Some? && k.value < |a.entries| {
      RemoveWrittenContents(a.entries, k.value);
      forall x | x in RemoveWritten(a.entries, k.value) ensures x in a.entries {
        assert x in multiset(RemoveWritten(a.entries, k.value));
      }
    }
  }

  lemma AddedFrom(a: WH.HeapArray<nat>, e: Entry<nat>)
    requires WH.ArrayOk(a) && SetAndAdded(a, Some(e)).Some?
    ensures forall x | x in SetAndAdded(a, Some(e)).value.entries :: x == e || (x in a.entries && x.timer != e.timer)
  {
    var keyed := WH.Rekeyed(a.entries, e.timer, e.when);
    var a' := a.(entries := keyed);
    WH.StepExact(a, WH.SetKey(e.timer, e.when));
    WH.AddStep(a', e);
    forall x | x in Insert(keyed, e) ensures x == e || (x in a.entries && x.timer != e.timer) {
      assert x in multiset(Insert(keyed, e));
      assert x == e || x in keyed;
    }
  }

  lemma ChangedFrom(a: WH.HeapArray<nat>, rem: Option<nat>, add: Option<Entry<nat>>)
    requires WH.ArrayOk(a) && Changed(a, rem, add).Some?
    ensures forall x | x in Changed(a, rem, add).value.entries ::
              if add.Some? then x == add.value || (x in a.entries && x.timer != add.value.timer) else x in a.entries
  {
    if rem.Some? {
      RemovedFrom(a, rem.value);
    }
    if add.Some? {
      AddedFrom(Removed(a, rem).value, add.value);
    }
  }

  /** A timer's firing time is that with which the step adds it, or what it was. */
  predicate KeyFollows(w: World, e: Event, w': World, id: nat)
    requires Reaches(w, e) && id in w'.timers
  {
    var add := Adds(w, e);
    if add.Some? && add.value.timer == id then w'.timers[id].whenToFire == add.value.when
    else (e.New? && e.id == id) || (id in w.timers && w'.timers[id].whenToFire == w.timers[id].whenToFire)
  }

  lemma KeyOfTask(w: World, e: Event, id: nat)
    requires Reaches(w, e) && id in Effect(w, e).timers && (e.Iterate? || e.Deliver?)
    ensures KeyFollows(w, e, Effect(w, e), id)
  {
  }

  lemma KeyOfCall(w: World, e: Event, id: nat)
    requires Reaches(w, e) && id in Effect(w, e).timers && !e.Iterate? && !e.Deliver?
    ensures KeyFollows(w, e, Effect(w, e), id)
  {
  }

  lemma KeyOfEffect(w: World, e: Event, id: nat)
    requires Reaches(w, e) && id in Effect(w, e).timers
    ensures KeyFollows(w, e, Effect(w, e), id)
  {
    if e.Iterate? || e.Deliver? {
      KeyOfTask(w, e, id);
    } else {
      KeyOfCall(w, e, id);
    }
  }

  lemma KeyedAfter(m: Machine, e: Event)
    requires Inv(m.w) && Coupled(m) && Enabled(m.w, e) && Fits(m, e) && Step(m, e).Some?
    ensures Keyed(Step(m, e).value.a.entries, Effect(m.w, e))
  {
    var s, w' := Step(m, e).value.a.entries, Effect(m.w, e);
    ChangedFrom(m.a, Removes(m.w, e), Adds(m.w, e));
    forall i | 0 <= i < |s| && s[i].timer in w'.timers ensures s[i].when == w'.timers[s[i].timer].whenToFire {
      assert s[i] in s;
      KeyOfEffect(m.w, e, s[i].timer);
      if s[i] in m.a.entries {
        EntryLive(m, s[i]);
      }
    }
  }

  lemma EntryLive(m: Machine, x: Entry<nat>)
    requires Inv(m.w) && Coupled(m) && x in m.a.entries
    ensures x.timer in m.w.timers && x.when == m.w.timers[x.timer].whenToFire
  {
    var i: nat :| i < |m.a.entries| && m.a.entries[i] == x;
    assert WH.Timers(m.a.entries)[i] == x.timer;
    assert x.timer in WH.Bag(m.a);
    assert TimerOk(m.w, x.timer);
  }

  // ---------- Runs in which no removal goes amiss ----------

  // As long as no removal goes amiss, each step is the step of the protocol, and array and
  // world stay coupled.
  lemma StepIsProtocol(m: Machine, e: Event)
    requires Inv(m.w) && Coupled(m) && Enabled(m.w, e) && Fits(m, e)
    ensures (Step(m, e).Some? && Step(m, e).value.w == Next(m.w, e)) <==> !Amiss(m, e)
    ensures !Amiss(m, e) ==> Coupled(Step(m, e).value)
  {
    RoomFor(m, e);
    StepExact(m, e);
    if !Amiss(m, e) {
      KeyedAfter(m, e);
    }
  }

  ghost function After(m: Machine, e: Event): (m': Machine)
    requires Inv(m.w) && Coupled(m) && Enabled(m.w, e) && Fits(m, e) && !Amiss(m, e)
    ensures Coupled(m') && m'.w == Next(m.w, e)
  {
    StepIsProtocol(m, e);
    Step(m, e).value
  }

  ghost predicate Smooth(m: Machine, es: seq<Event>)
    requires Inv(m.w) && Coupled(m)
    decreases es
  {
    es == [] || (Enabled(m.w, es[0]) && Fits(m, es[0]) && !Amiss(m, es[0]) && Smooth(After(m, es[0]), es[1..]))
  }

  ghost function End(m: Machine, es: seq<Event>): (m': Machine)
    requires Inv(m.w) && Coupled(m) && Smooth(m, es)
    ensures Inv(m'.w) && Coupled(m')
    decreases es
  {
    if es == [] then m else End(After(m, es[0]), es[1..])
  }

  /** The run from m0 leads to m with no removal amiss. */
  ghost predicate Reached(m0: Machine, es: seq<Event>, m: Machine) {
    Inv(m0.w) && Coupled(m0) && Smooth(m0, es) && End(m0, es) == m
  }

  lemma ReachedCons(m: Machine, e: Event, rest: seq<Event>, m': Machine)
    requires Inv(m.w) && Coupled(m) && Enabled(m.w, e) && Fits(m, e) && !Amiss(m, e)
    requires Reached(After(m, e), rest, m')
    ensures Reached(m, [e] + rest, m')
  {
    assert ([e] + rest)[1..] == rest;
  }

  lemma ReachedTail(m: Machine, es: seq<Event>, m': Machine)
    requires Reached(m, es, m') && es != []
    ensures Enabled(m.w, es[0]) && Fits(m, es[0]) && !Amiss(m, es[0])
    ensures Reached(After(m, es[0]), es[1..], m')
  {
  }

  lemma {:induction false} ReachedOn(m0: Machine, es: seq<Event>, m: Machine, e: Event)
    requires Reached(m0, es, m) && Inv(m.w) && Coupled(m)
    requires Enabled(m.w, e) && Fits(m, e) && !Amiss(m, e)
    ensures Reached(m0, es + [e], After(m, e))
    decreases es
  {
    if es == [] {
      ReachedCons(m, e, [], After(m, e));
      assert [] + [e] == [e] + [];
    } else {
      ReachedTail(m0, es, m);
      ReachedOn(After(m0, es[0]), es[1..], m, e);
      ReachedCons(m0, es[0], es[1..] + [e], After(m, e));
      Uncons(es, [e]);
    }
  }

  /** A step of the code as written, amiss or not. */
  ghost predicate Makes(m: Machine, e: Event, m': Machine) {
    WH.ArrayOk(m.a) && Fits(m, e) && Step(m, e) == Some(m')
  }

  // The code as written, run within the discipline with no removal going amiss, is a run of the
  // protocol: all that is proved of every run holds of it, whatever becomes of the order.
  lemma {:induction false} WrittenRefines(m: Machine, es: seq<Event>)
    requires Inv(m.w) && Coupled(m) && Smooth(m, es)
    ensures Runs(m.w, es) && Final(m.w, es) == End(m, es).w
    decreases es
  {
    if es != [] {
      WrittenRefines(After(m, es[0]), es[1..]);
    }
  }

  // ---------- When a removal goes amiss ----------

  lemma CountAt(s: seq<nat>, x: nat, i: nat, j: nat)
    requires i < j < |s| && s[i] == s[j] == x
    ensures multiset(s)[x] >= 2
  {
    assert s == s[..j] + s[j..];
    assert x in s[..j] && x in s[j..];
    assert multiset(s) == multiset(s[..j]) + multiset(s[j..]);
  }

  // A timer is in one slot at most, so the one missed is just the one in the last slot of four
  // or more.
  lemma MissedIsLast(m: Machine, id: nat)
    requires Inv(m.w) && Coupled(m)
    ensures var n := |m.a.entries|;
            WH.Missed(m.a, WH.Remove(id)) <==> n >= 4 && m.a.slots[n - 1] == id
  {
    var n := |m.a.entries|;
    if n >= 4 && m.a.slots[n - 1] == id && id in m.a.slots[..n - 1] {
      var i: nat :| i < n - 1 && m.a.slots[..n - 1][i] == id;
      assert TimerOk(m.w, id);
      CountAt(WH.Timers(m.a.entries), id, i, n - 1);
      assert false;
    }
  }

  // In slot 0 the timer task finds what it removes.
  lemma TopNotAmiss(m: Machine, e: Event)
    requires Inv(m.w) && Coupled(m) && Enabled(m.w, e) && Fits(m, e) && e.Iterate?
    ensures !Amiss(m, e)
  {
    MissedIsLast(m, e.top);
    var n := |m.a.entries|;
    if n >= 4 && m.a.slots[n - 1] == e.top {
      assert TimerOk(m.w, e.top);
      CountAt(WH.Timers(m.a.entries), e.top, 0, n - 1);
      assert false;
    }
  }

  lemma InOneSlot(m: Machine, id: nat)
    requires Coupled(m) && id in m.w.heap
    ensures |m.a.entries| > 0 && (|m.a.entries| == 1 ==> m.a.slots[0] == id)
  {
    assert id in WH.Timers(m.a.entries);
  }

  // So a removal goes amiss only in a stop, a restart or a delete: of the timer in the last
  // slot of four or more, or of one that is not in the heap, when there is at most one timer
  // and a stale slot holds it.
  lemma AmissExact(m: Machine, e: Event)
    requires Inv(m.w) && Coupled(m) && Enabled(m.w, e) && Fits(m, e)
    ensures Amiss(m, e) <==>
              && (e.Stop? || e.Restart? || e.Delete?)
              && Removes(m.w, e) == Some(e.id)
              && var n := |m.a.entries|;
              || (n >= 4 && m.a.slots[n - 1] == e.id)
              || (n == 1 && m.a.slots[0] != e.id && m.a.slots[1] == e.id)
              || (n == 0 && e.id in m.a.slots[..3])
  {
    var rem := Removes(m.w, e);
    if e.Iterate? {
      TopNotAmiss(m, e);
    } else if e.Deliver? {
      DeliveredIsOut(m.w, e.queue);
    } else if rem.Some? {
      MissedIsLast(m, rem.value);
    }
  }

  // A removal that misses its timer leaves the array as it is.
  lemma MissedChangesNothing(a: WH.HeapArray<nat>, id: nat)
    requires WH.ArrayOk(a) && WH.Missed(a, WH.Remove(id))
    ensures Removed(a, Some(id)) == Some(a) && id in WH.Bag(a)
  {
    WH.StepExact(a, WH.Remove(id));
    WH.SearchAmongMany(a, id);
    WH.OccupiedAre(a);
    assert WH.Timers(a.entries)[|a.entries| - 1] == id;
  }

  // A stop or a delete that misses its timer sets the fields, or gives the slot back, and
  // leaves the timer in the heap: stopped, with its callback; or no longer live.
  lemma MissedCall(m: Machine, e: Event)
    requires Inv(m.w) && Coupled(m) && Enabled(m.w, e) && (e.Stop? || e.Delete?)
    requires Removes(m.w, e) == Some(e.id) && WH.Missed(m.a, WH.Remove(e.id))
    ensures Step(m, e) == Some(Machine(Effect(m.w, e).(heap := m.w.heap), m.a)) && e.id in m.w.heap
    ensures e.Stop? ==> Effect(m.w, e).timers[e.id] == m.w.timers[e.id].(state := Idle)
    ensures e.Delete? ==> e.id !in Effect(m.w, e).timers
  {
    MissedChangesNothing(m.a, e.id);
  }

  // A stop as written takes a timer out of the heap exactly when it is not in the last slot of
  // four or more.
  lemma StopTakesOut(m: Machine, id: nat)
    requires Inv(m.w) && Coupled(m) && Enabled(m.w, Stop(id)) && id in m.w.heap
    ensures var n := |m.a.entries|;
            && Step(m, Stop(id)).Some?
            && (id !in Step(m, Stop(id)).value.w.heap <==> !(n >= 4 && m.a.slots[n - 1] == id))
  {
    AmissExact(m, Stop(id));
    InOneSlot(m, id);
    assert TimerOk(m.w, id);
    if Amiss(m, Stop(id)) {
      MissedIsLast(m, id);
      MissedCall(m, Stop(id));
    } else {
      StepIsProtocol(m, Stop(id));
    }
  }
}
