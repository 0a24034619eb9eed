/**
 The timer engine on its shared memory: Timer objects in pool slots, the heap array, the
 free list and the message queues, with every operation shown to be a step of the protocol.

 A Timer pointer is a Timer object; `slot` is the pool slot it lies in. The heap is the
 repaired one. For the proofs, `log` records the protocol steps taken so far and what the
 code does to the outside: callbacks run and deleted, messages sent and received, slots
 given back. `Valid` says that these steps are a run from the start that leads to the state
 the memory holds, and that what was seen is what that run shows.
 */
module TimerEngine {
  import opened Common
  import opened HeapOrder
  import opened HeapSearch
  import opened PriorityQueue
  import opened Protocol
  import opened ProtocolRuns
  import opened Backlog
  import opened Codec
  import opened Timers
  import Accounts
  import FiringOrder
  import MinHeap
  import Pool

  // TaskId::TimerTask, the sender of every expiry message, and the event it names.
  const TIMER_TASK := 2
  const NO_EVENT := 0

  /** The bag of pool slots the first n heap entries name. */
  function IdBagUpTo(s: seq<Entry<Timer>>, n: nat): multiset<nat>
    requires n <= |s|
  {
    if n == 0 then multiset{} else IdBagUpTo(s, n - 1) + multiset{s[n - 1].timer.slot}
  }

  function IdBag(s: seq<Entry<Timer>>): multiset<nat> {
    IdBagUpTo(s, |s|)
  }

  lemma {:induction false} IdBagPrefix(a: seq<Entry<Timer>>, b: seq<Entry<Timer>>, n: nat)
    requires n <= |a|
    ensures IdBagUpTo(a + b, n) == IdBagUpTo(a, n)
  {
    if n > 0 {
      IdBagPrefix(a, b, n - 1);
    }
  }

  lemma {:induction false} IdBagSuffix(a: seq<Entry<Timer>>, b: seq<Entry<Timer>>, n: nat)
    requires n <= |b|
    ensures IdBagUpTo(a + b, |a| + n) == IdBag(a) + IdBagUpTo(b, n)
  {
    if n > 0 {
      IdBagSuffix(a, b, n - 1);
      assert (a + b)[|a| + n - 1] == b[n - 1];
    } else {
      IdBagPrefix(a, b, |a|);
    }
  }

  lemma IdBagConcat(a: seq<Entry<Timer>>, b: seq<Entry<Timer>>)
    ensures IdBag(a + b) == IdBag(a) + IdBag(b)
  {
    IdBagSuffix(a, b, |b|);
  }

  lemma IdBagSnoc(a: seq<Entry<Timer>>, e: Entry<Timer>)
    ensures IdBag(a + [e]) == IdBag(a) + multiset{e.timer.slot}
  {
    IdBagPrefix(a, [e], |a|);
  }

  lemma {:induction false} IdBagMembersUpTo(s: seq<Entry<Timer>>, n: nat)
    requires n <= |s|
    ensures |IdBagUpTo(s, n)| == n
    ensures forall id :: id in IdBagUpTo(s, n) <==> exists i :: 0 <= i < n && s[i].timer.slot == id
  {
    if n > 0 {
      IdBagMembersUpTo(s, n - 1);
    }
  }

  lemma IdBagMembers(s: seq<Entry<Timer>>)
    ensures |IdBag(s)| == |s|
    ensures forall id :: id in IdBag(s) <==> exists i :: 0 <= i < |s| && s[i].timer.slot == id
  {
    IdBagMembersUpTo(s, |s|);
  }

  lemma IdBagAround(l: seq<Entry<Timer>>, e: Entry<Timer>, r: seq<Entry<Timer>>)
    ensures IdBag(l + [e] + r) == IdBag(l + r) + multiset{e.timer.slot}
  {
    IdBagConcat(l, r);
    IdBagConcat(l + [e], r);
    IdBagSnoc(l, e);
  }

  lemma BagAround<T>(l: seq<T>, e: T, r: seq<T>, m: multiset<T>)
    requires multiset(l + [e] + r) == m + multiset{e}
    ensures multiset(l + r) == m
  {
    assert multiset(l + [e] + r) == multiset(l + r) + multiset{e};
    assert multiset(l + r) == m + multiset{e} - multiset{e};
  }

  lemma {:induction false} SameBagSameIds(a: seq<Entry<Timer>>, b: seq<Entry<Timer>>)
    requires multiset(a) == multiset(b)
    ensures IdBag(a) == IdBag(b)
    decreases |a|
  {
    if a == [] {
      assert |multiset(b)| == |b|;
    } else {
      var rest, e := a[..|a| - 1], a[|a| - 1];
      assert a == rest + [e];
      assert e in multiset(b);
      var k: nat :| k < |b| && b[k] == e;
      var l, r := b[..k], b[k + 1..];
      assert b == l + [e] + r;
      BagAround(l, e, r, multiset(rest));
      SameBagSameIds(rest, l + r);
      IdBagAround(l, e, r);
      IdBagSnoc(rest, e);
    }
  }

  lemma BagWithOneMore(a: seq<Entry<Timer>>, b: seq<Entry<Timer>>, e: Entry<Timer>)
    requires multiset(a) == multiset(b) + multiset{e}
    ensures IdBag(a) == IdBag(b) + multiset{e.timer.slot}
  {
    assert multiset(a) == multiset(b + [e]);
    SameBagSameIds(a, b + [e]);
    IdBagSnoc(b, e);
  }

  /** The queue of messages ms carries the pool indices ids, sent by the timer task. */
  ghost predicate Carries(ms: seq<seq<byte>>, ids: seq<nat>) {
    && |ms| == |ids|
    && forall i | 0 <= i < |ms| :: ids[i] < TWO_32 && ms[i] == EncodeMessage(TIMER_TASK, NO_EVENT, ids[i])
  }

  // Slot to address to index to message and back: the callback task finds the very slot
  // that was fired.
  lemma SlotRecovered(base: nat, max: nat, size: nat, slot: nat, from: nat, event: nat)
    requires size > 0 && slot < max < TWO_32 && from < TWO_32 && event < TWO_32
    ensures var index := Pool.IndexOf(base, max, size, Pool.LocationOf(base, max, size, slot));
            && index == slot
            && Pool.LocationOf(base, max, size, MessageIndex(EncodeMessage(from, event, index)))
               == Pool.LocationOf(base, max, size, slot)
  {
    Pool.InsideMapsToIndex(base, max, size, slot, Pool.LocationOf(base, max, size, slot));
    MessageRoundTrip(from, event, slot);
  }

  lemma Overwrite<K, V>(m: map<K, V>, k: K, a: V, b: V)
    ensures m[k := a][k := b] == m[k := b]
  {
  }

  class TimerSystem {
    const slots: seq<Timer>
    const pool: Pool.MemoryPool
    const heap: MinHeap.TimerMinHeap
    const base: nat
    const size: nat
    var queues: seq<seq<seq<byte>>>
    var clock: nat
    // The protocol state the memory holds, and what has been done and seen so far.
    ghost var timers: map<nat, TimerRec>
    ghost var inHeap: multiset<nat>
    ghost var sent: seq<seq<nat>>
    ghost var deleted: set<nat>
    ghost var log: Log

    ghost function View(): World
      reads `timers, `inHeap, `sent, `clock, `deleted
    {
      World(timers, inHeap, sent, clock, deleted)
    }

    predicate Owns(t: Timer) {
      t.slot < |slots| && slots[t.slot] == t
    }

    ghost predicate SlotsOk() {
      |slots| == MAX_NUMBER_OF_TIMERS && size > 0 && forall i | 0 <= i < |slots| :: slots[i].slot == i
    }

    ghost predicate AllOwned(s: seq<Entry<Timer>>) {
      forall i | 0 <= i < |s| :: Owns(s[i].timer)
    }

    ghost predicate PoolTied()
      reads `timers, pool, pool.freeList
    {
      pool.Valid() && pool.max == MAX_NUMBER_OF_TIMERS && timers.Keys == pool.live
    }

    ghost predicate TimersTied()
      reads `timers, slots
    {
      forall i | i in timers :: i < |slots| && timers[i] == slots[i].Rec()
    }

    ghost predicate HeapTied()
      reads `inHeap, heap, heap.heap, heap.heap[..]`whenToFire
    {
      heap.Valid() && AllOwned(heap.entries) && IsHeap(heap.entries) && inHeap == IdBag(heap.entries)
    }

    ghost predicate QueuesTied()
      reads `queues, `sent
    {
      && |queues| == |sent| == MAX_TASKS
      && forall q | 0 <= q < MAX_TASKS :: Carries(queues[q], sent[q])
    }

    /** Timer objects and heap array hold their part of the protocol state. */
    ghost predicate HeapAndTimers()
      reads `timers, `inHeap, heap, heap.heap, heap.heap[..]`whenToFire, slots
    {
      SlotsOk() && TimersTied() && HeapTied()
    }

    /** The memory holds the protocol state. */
    ghost predicate Tied()
      reads `timers, `inHeap, `queues, `sent
      reads pool, pool.freeList, heap, heap.heap, heap.heap[..]`whenToFire, slots
    {
      HeapAndTimers() && PoolTied() && QueuesTied()
    }

    ghost predicate Valid()
      reads this, pool, pool.freeList, heap, heap.heap, heap.heap[..]`whenToFire, slots
    {
      Tied() && Recorded()
    }

    /** The protocol state is the end of the steps in the log, which tells what is seen of
        them. */
    ghost predicate Recorded()
      reads `timers, `inHeap, `sent, `clock, `deleted, `log
    {
      Chronicle(log, View())
    }

    /** The pool's slots, each seen as the Timer object that lies in it. */
    static method MapSlots() returns (ts: seq<Timer>)
      ensures |ts| == MAX_NUMBER_OF_TIMERS
      ensures forall i | 0 <= i < |ts| :: fresh(ts[i]) && ts[i].slot == i
    {
      ts := [];
      while |ts| < MAX_NUMBER_OF_TIMERS
        invariant |ts| <= MAX_NUMBER_OF_TIMERS
        invariant forall i | 0 <= i < |ts| :: fresh(ts[i]) && ts[i].slot == i
      {
        var t := new Timer(|ts|);
        ts := ts + [t];
      }
    }

    /** Memory as the processes find it at the start. */
    ghost predicate Blank()
      reads this, pool, pool.freeList, heap, heap.heap, heap.heap[..]`whenToFire
    {
      && SlotsOk() && pool.Valid() && pool.max == MAX_NUMBER_OF_TIMERS && pool.live == {}
      && heap.Valid() && heap.entries == []
      && queues == [[], [], []] && sent == [[], [], []]
      && timers == map[] && inHeap == multiset{} && clock == 0 && deleted == {} && log == Log([], [])
    }

    constructor (base: nat, size: nat)
      requires size > 0
      ensures Blank()
      ensures fresh(pool) && fresh(pool.freeList) && fresh(heap) && fresh(heap.heap)
      ensures forall i | 0 <= i < |slots| :: fresh(slots[i])
    {
      var ts := MapSlots();
      slots := ts;
      pool := new Pool.MemoryPool(|ts|);
      heap := new MinHeap.TimerMinHeap();
      this.base := base;
      this.size := size;
      queues := [[], [], []];
      clock := 0;
      timers, inHeap, sent, deleted, log := map[], multiset{}, [[], [], []], {}, Log([], []);
      new;
      assert pool.Valid();
      assert heap.Valid();
    }

    lemma BlankIsEmpty()
      requires Blank()
      ensures Valid() && View() == EMPTY
    {
      EmptyInvariant();
    }

    // Whatever calls, iterations and deliveries have been made: no callback has run or been
    // deleted after its deletion, each task has received what was fired for it, in order, up
    // to what is still queued, and the heap holds live timers that are not Done, in bounds.
    lemma EveryHistory()
      requires Valid()
      ensures CallbackSafe(log.seen)
      ensures forall q: nat | q < MAX_TASKS :: FiredTo(log.seen, q) == DeliveredTo(log.seen, q) + sent[q]
      ensures heap.numberOfTimers <= |timers| <= MAX_NUMBER_OF_TIMERS
      ensures forall i | 0 <= i < heap.numberOfTimers :: heap.heap[i].slot in timers && heap.heap[i].state != Done
    {
      CallbacksFreedOnce(EMPTY, log.steps);
      HeapFits(View());
      IdBagMembers(heap.entries);
      forall q: nat | q < MAX_TASKS ensures FiredTo(log.seen, q) == DeliveredTo(log.seen, q) + sent[q] {
        MessagesFromStart(log.steps, q);
      }
      forall i | 0 <= i < heap.numberOfTimers
        ensures heap.heap[i].slot in timers && heap.heap[i].state != Done
      {
        HeapTimer(i);
      }
    }

    // And the timers fired in order of firing time, in which each task has received them, if
    // none was ever put into the heap before the one fired last.
    lemma EveryHistoryInOrder(q: nat)
      requires Valid() && FiringOrder.NeverBefore(EMPTY, log.steps, 0) && q < MAX_TASKS
      ensures FiringOrder.Ascending(FiringOrder.Keys(log.seen), 0)
      ensures FiringOrder.ReceivedInOrder(log.seen, q)
    {
      FiringOrder.TasksReceiveInOrder(log.steps, q);
    }

    // The callbacks gone are those seen to be deleted, and a slot has been given back as often as
    // it was taken, but for the timer that lives in it.
    lemma EveryDeletion(id: nat)
      requires Valid()
      ensures forall cb: nat :: cb in deleted <==> FreedCallback(cb) in log.seen
      ensures Accounts.TimesMade(log.steps, id)
              == Accounts.TimesFreed(log.seen, id) + if id in pool.live then 1 else 0
    {
      Accounts.EveryDeletionSeen(EMPTY, log.steps);
      Accounts.TimersBalance(EMPTY, log.steps, id);
    }

    // Every message waiting in a queue names the timer task as its sender, and a pool slot.
    lemma EveryMessage(q: nat, i: nat)
      requires QueuesTied() && q < MAX_TASKS && i < |queues[q]|
      ensures |queues[q][i]| == MESSAGE_SIZE && |sent[q]| == |queues[q]|
      ensures MessageFrom(queues[q][i]) == 2 && MessageIndex(queues[q][i]) == sent[q][i]
    {
      MessageRoundTrip(TIMER_TASK, NO_EVENT, sent[q][i]);
    }

    lemma HeapTimer(i: nat)
      requires HeapAndTimers() && Inv(View()) && i < heap.numberOfTimers
      ensures heap.heap[i].slot in timers && heap.heap[i].state != Done
    {
      var t := heap.entries[i].timer;
      IdBagMembers(heap.entries);
      assert TimerOk(View(), t.slot);
      assert timers[t.slot] == t.Rec();
    }

    // ---------- Heap access ----------

    lemma Added(s: seq<Entry<Timer>>, t: Timer, e: Entry<Timer>)
      requires AllOwned(s) && IsHeap(s) && Owns(t) && e.timer == t
      ensures var r := Apply(s, Add(e));
              AllOwned(r) && IsHeap(r) && IdBag(r) == IdBag(s) + multiset{t.slot}
    {
      var r := Apply(s, Add(e));
      ApplyRefines(s, Add(e));
      BagWithOneMore(r, s, e);
      OwnersKept(r, s, e);
    }

    lemma Removed(s: seq<Entry<Timer>>, t: Timer, e: Entry<Timer>)
      requires AllOwned(s) && IsHeap(s) && Owns(t) && e.timer == t
      requires forall i | 0 <= i < |s| && s[i].timer == t :: s[i] == e
      ensures var r := Apply(s, Remove(e));
              AllOwned(r) && IsHeap(r) && IdBag(r) == IdBag(s) - multiset{t.slot}
    {
      var r := Apply(s, Remove(e));
      ApplyRefines(s, Remove(e));
      OwnersKept(r, s, e);
      if e in s {
        assert multiset(s) == multiset(r) + multiset{e};
        BagWithOneMore(s, r, e);
      } else {
        SearchMeantExact(s, |s|, e, 0);
        NotListed(s, t, e);
      }
    }

    lemma OwnersKept(a: seq<Entry<Timer>>, b: seq<Entry<Timer>>, e: Entry<Timer>)
      requires AllOwned(b) && Owns(e.timer) && multiset(a) <= multiset(b) + multiset{e}
      ensures AllOwned(a)
    {
      forall i | 0 <= i < |a| ensures Owns(a[i].timer) {
        assert a[i] in multiset(a);
        assert a[i] in b || a[i] == e;
      }
    }

    lemma NotListed(s: seq<Entry<Timer>>, t: Timer, e: Entry<Timer>)
      requires AllOwned(s) && Owns(t) && e !in s
      requires forall i | 0 <= i < |s| && s[i].timer == t :: s[i] == e
      ensures t.slot !in IdBag(s)
    {
      IdBagMembers(s);
    }

    method AddToHeap(t: Timer)
      requires HeapTied() && Owns(t) && heap.numberOfTimers < MAX_NUMBER_OF_TIMERS
      modifies heap, heap.heap, `inHeap
      ensures HeapTied() && inHeap == old(inHeap) + multiset{t.slot}
    {
      Added(heap.entries, t, t.Key());
      var r := heap.AddToHeap(t);
      inHeap := inHeap + multiset{t.slot};
    }

    method RemoveFromHeap(t: Timer)
      requires HeapTied() && Owns(t)
      modifies heap, heap.heap, `inHeap
      ensures HeapTied() && inHeap == old(inHeap) - multiset{t.slot}
    {
      Removed(heap.entries, t, t.Key());
      var r := heap.RemoveFromHeap(t);
      inHeap := inHeap - multiset{t.slot};
    }

    // A timer that is not in the heap can be given any firing time.
    twostate lemma OutsideHeap(t: Timer)
      requires old(HeapTied()) && Owns(t) && t.slot !in inHeap
      requires unchanged(`inHeap) && unchanged(heap) && unchanged(heap.heap)
      requires forall i | 0 <= i < |slots| && i != t.slot :: slots[i].whenToFire == old(slots[i].whenToFire)
      ensures HeapTied()
    {
      IdBagMembers(heap.entries);
    }

    // A live timer outside the heap finds a free slot in the array.
    lemma RoomInHeap(t: Timer)
      requires Valid() && t.slot in timers && t.slot !in inHeap
      ensures heap.numberOfTimers < MAX_NUMBER_OF_TIMERS
    {
      HeapHasRoom(View(), t.slot);
      IdBagMembers(heap.entries);
    }

    // ---------- Fields of one live timer, and their record ----------

    method ScheduleFields(t: Timer, cb: nat, args: ScheduleArgs)
      requires SlotsOk() && TimersTied() && Owns(t) && t.slot in timers && ArgsOk(clock, args)
      modifies t, `timers
      ensures TimersTied() && timers.Keys == old(timers.Keys)
      ensures timers == old(timers)[t.slot := Scheduled(clock, old(timers)[t.slot], cb, args)]
    {
      t.SetSchedule(clock, cb, args);
      timers := timers[t.slot := t.Rec()];
    }

    method SetState(t: Timer, s: TimerState)
      requires SlotsOk() && TimersTied() && Owns(t) && t.slot in timers
      modifies t`state, `timers
      ensures TimersTied() && timers.Keys == old(timers.Keys)
      ensures timers == old(timers)[t.slot := old(timers)[t.slot].(state := s)]
    {
      t.SetTimerState(s);
      timers := timers[t.slot := timers[t.slot].(state := s)];
    }

    method NextFiringFields(t: Timer, newTimeout: nat)
      requires SlotsOk() && TimersTied() && Owns(t) && t.slot in timers
      modifies t`timeout, t`whenToFire, t`state, `timers
      ensures TimersTied() && timers.Keys == old(timers.Keys)
      ensures timers == old(timers)[t.slot := Rearmed(clock, old(timers)[t.slot].(timeout := newTimeout))]
    {
      t.SetNextFiring(clock, newTimeout);
      timers := timers[t.slot := t.Rec()];
    }

    method FiredFields(t: Timer)
      requires SlotsOk() && TimersTied() && Owns(t) && t.slot in timers
      modifies t`fired, t`state, `timers
      ensures TimersTied() && timers.Keys == old(timers.Keys)
      ensures var r := old(timers)[t.slot];
              timers == old(timers)[t.slot := r.(fired := (r.fired + 1) % TWO_32, state := Done)]
    {
      t.IncNumberOfTimesFired();
      t.SetTimerState(Done);
      timers := timers[t.slot := t.Rec()];
    }

    /** `delete pCb`, when there is a callback. */
    method DeleteCallback(t: Timer)
      requires SlotsOk() && TimersTied() && Owns(t) && t.slot in timers
      modifies t`pCb, `timers, `deleted, `log
      ensures TimersTied() && timers.Keys == old(timers.Keys)
      ensures var r := old(timers)[t.slot];
              && timers == old(timers)[t.slot := r.(pCb := None)]
              && deleted == old(deleted) + Owned(r)
              && log == Saw(old(log), ObserveOwned(r))
    {
      ghost var r := timers[t.slot];
      if t.pCb.Some? {
        log := Saw(log, [FreedCallback(t.pCb.value)]);
        deleted := deleted + {t.pCb.value};
        t.DropCallback();
      }
      timers := timers[t.slot := r.(pCb := None)];
    }

    // ---------- Application calls ----------

    method Arm(t: Timer, cb: nat, args: ScheduleArgs)
      requires HeapAndTimers() && Owns(t) && t.slot in timers && t.slot !in inHeap && ArgsOk(clock, args)
      requires heap.numberOfTimers < MAX_NUMBER_OF_TIMERS
      modifies t, heap, heap.heap, `timers, `inHeap
      ensures HeapAndTimers() && timers.Keys == old(timers.Keys) && inHeap == old(inHeap) + multiset{t.slot}
      ensures timers == old(timers)[t.slot := Scheduled(clock, old(timers)[t.slot], cb, args)]
    {
      ScheduleFields(t, cb, args);
      OutsideHeap(t);
      AddToHeap(t);
    }

    /** What schedule() does in memory. */
    method ScheduleNow(t: Timer, cb: nat, args: ScheduleArgs)
      requires Tied() && Owns(t) && t.slot in timers && t.slot !in inHeap && ArgsOk(clock, args)
      requires heap.numberOfTimers < MAX_NUMBER_OF_TIMERS
      modifies t, heap, heap.heap, `timers, `inHeap
      ensures Tied() && View() == ScheduleTimer(old(View()), t.slot, cb, args)
    {
      Arm(t, cb, args);
      assert QueuesTied();
      assert PoolTied();
    }

    method Schedule(t: Timer, cb: nat, args: ScheduleArgs)
      requires Valid() && Owns(t) && Enabled(View(), Event.Schedule(t.slot, cb, args))
      modifies t, heap, heap.heap, `timers, `inHeap, `log
      ensures Valid() && View() == Next(old(View()), Event.Schedule(t.slot, cb, args))
      ensures log == Extend(old(log), old(View()), Event.Schedule(t.slot, cb, args))
    {
      ghost var e := Event.Schedule(t.slot, cb, args);
      RoomInHeap(t);
      QuietStep(log, View(), e);
      log := Did(log, e);
      ScheduleNow(t, cb, args);
      assert Tied();
    }

    method CancelFields(t: Timer)
      requires SlotsOk() && TimersTied() && Owns(t) && t.slot in timers
      modifies t`pCb, t`state, `timers, `deleted, `log
      ensures TimersTied() && timers.Keys == old(timers.Keys)
      ensures var r := old(timers)[t.slot];
              && timers == old(timers)[t.slot := r.(pCb := None, state := TimerState.Idle)]
              && deleted == old(deleted) + Owned(r)
              && log == Saw(old(log), ObserveOwned(r))
    {
      ghost var r := timers[t.slot];
      Overwrite(timers, t.slot, r.(pCb := None), r.(pCb := None, state := TimerState.Idle));
      DeleteCallback(t);
      SetState(t, TimerState.Idle);
    }

    /** What cancel() does in memory. */
    method CancelNow(t: Timer)
      requires Tied() && Owns(t) && t.slot in timers
      modifies t`pCb, t`state, `timers, `deleted, `log
      ensures Tied() && View() == CancelTimer(old(View()), t.slot)
      ensures log == Saw(old(log), ObserveOwned(old(timers)[t.slot]))
    {
      CancelFields(t);
      assert HeapTied();
      assert QueuesTied();
      assert PoolTied();
    }

    method Cancel(t: Timer)
      requires Valid() && Owns(t) && Enabled(View(), Event.Cancel(t.slot))
      modifies t, `timers, `deleted, `log
      ensures Valid() && View() == Next(old(View()), Event.Cancel(t.slot))
      ensures log == Extend(old(log), old(View()), Event.Cancel(t.slot))
    {
      ghost var e := Event.Cancel(t.slot);
      ChronicleStep(log, View(), e);
      log := Did(log, e);
      CancelNow(t);
      assert Tied();
    }

    method ChangeFiringTime(t: Timer, newTimeout: nat)
      requires HeapAndTimers() && Owns(t) && t.slot in timers && t.slot !in inHeap
      requires heap.numberOfTimers < MAX_NUMBER_OF_TIMERS
      modifies t, heap, heap.heap, `timers, `inHeap
      ensures HeapAndTimers() && timers.Keys == old(timers.Keys) && inHeap == old(inHeap) + multiset{t.slot}
      ensures timers == old(timers)[t.slot := Rearmed(clock, old(timers)[t.slot].(timeout := newTimeout))]
    {
      NextFiringFields(t, newTimeout);
      OutsideHeap(t);
      AddToHeap(t);
    }

    method TakeFromHeap(t: Timer, s: TimerState)
      requires HeapAndTimers() && Owns(t) && t.slot in timers
      modifies t`state, heap, heap.heap, `timers, `inHeap
      ensures HeapAndTimers() && timers.Keys == old(timers.Keys) && inHeap == old(inHeap) - multiset{t.slot}
      ensures timers == old(timers)[t.slot := old(timers)[t.slot].(state := s)]
    {
      SetState(t, s);
      RemoveFromHeap(t);
    }

    method StopNow(t: Timer)
      requires Tied() && Owns(t) && t.slot in timers
      modifies t`state, heap, heap.heap, `timers, `inHeap
      ensures Tied() && View() == StopTimer(old(View()), t.slot)
    {
      TakeFromHeap(t, TimerState.Idle);
      assert QueuesTied();
      assert PoolTied();
    }

    method Stop(t: Timer)
      requires Valid() && Owns(t) && Enabled(View(), Event.Stop(t.slot))
      modifies t`state, heap, heap.heap, `timers, `inHeap, `log
      ensures Valid() && View() == Next(old(View()), Event.Stop(t.slot))
      ensures log == Extend(old(log), old(View()), Event.Stop(t.slot))
    {
      StopStep(log, View(), t.slot);
      log := Did(log, Event.Stop(t.slot));
      StopNow(t);
    }

    // A timer has just been taken out: there is room to put it back.
    lemma RoomAgain(before: seq<Entry<Timer>>, t: Timer)
      requires HeapTied() && |before| <= MAX_NUMBER_OF_TIMERS
      requires IdBag(before)[t.slot] == 1 && inHeap == IdBag(before) - multiset{t.slot}
      ensures t.slot !in inHeap && heap.numberOfTimers < MAX_NUMBER_OF_TIMERS
    {
      IdBagMembers(before);
      IdBagMembers(heap.entries);
    }

    /** The second half of restart(): the next firing is a timeout from now. */
    method ArmAgain(t: Timer)
      requires HeapAndTimers() && Owns(t) && t.slot in timers && t.slot !in inHeap
      requires heap.numberOfTimers < MAX_NUMBER_OF_TIMERS
      modifies t, heap, heap.heap, `timers, `inHeap
      ensures HeapAndTimers() && timers.Keys == old(timers.Keys) && inHeap == old(inHeap) + multiset{t.slot}
      ensures timers == old(timers)[t.slot := Rearmed(clock, old(timers)[t.slot])]
    {
      ghost var r := timers[t.slot];
      assert r == t.Rec() && r.(timeout := r.timeout) == r;
      ChangeFiringTime(t, t.timeout);
    }

    /** Out of the heap, with a slot to come back to. */
    method TakeForAWhile(t: Timer)
      requires HeapAndTimers() && Owns(t) && t.slot in timers && inHeap[t.slot] == 1
      modifies t`state, heap, heap.heap, `timers, `inHeap
      ensures HeapAndTimers() && timers.Keys == old(timers.Keys)
      ensures inHeap == old(inHeap) - multiset{t.slot}
      ensures t.slot !in inHeap && heap.numberOfTimers < MAX_NUMBER_OF_TIMERS
      ensures timers == old(timers)[t.slot := old(timers)[t.slot].(state := TimerState.Idle)]
    {
      TakeFromHeap(t, TimerState.Idle);
      RoomAgain(old(heap.entries), t);
    }

    method RestartInHeap(t: Timer)
      requires HeapAndTimers() && Owns(t) && t.slot in timers && inHeap[t.slot] == (if t.state == Active then 1 else 0)
      requires t.state != Active ==> heap.numberOfTimers < MAX_NUMBER_OF_TIMERS
      modifies t, heap, heap.heap, `timers, `inHeap
      ensures HeapAndTimers() && timers.Keys == old(timers.Keys)
      ensures timers == old(timers)[t.slot := Rearmed(clock, old(timers)[t.slot])]
      ensures var rest := if old(t.state) == Active then old(inHeap) - multiset{t.slot} else old(inHeap);
              inHeap == rest + multiset{t.slot}
    {
      if t.state == Active {
        ghost var r := timers[t.slot];
        Overwrite(timers, t.slot, r.(state := TimerState.Idle), Rearmed(clock, r));
        TakeForAWhile(t);
        assert Rearmed(clock, timers[t.slot]) == Rearmed(clock, r);
      }
      ArmAgain(t);
    }

    /** What restart() does in memory. */
    method RestartNow(t: Timer)
      requires Tied() && Owns(t) && t.slot in timers && inHeap[t.slot] == (if t.state == Active then 1 else 0)
      requires t.state != Active ==> heap.numberOfTimers < MAX_NUMBER_OF_TIMERS
      modifies t, heap, heap.heap, `timers, `inHeap
      ensures Tied() && View() == RestartTimer(old(View()), t.slot)
    {
      assert timers[t.slot] == t.Rec();
      RestartInHeap(t);
      assert PoolTied();
      assert QueuesTied();
    }

    lemma PlaceBeforeRestart(t: Timer)
      requires Valid() && Owns(t) && Enabled(View(), Event.Restart(t.slot))
      ensures inHeap[t.slot] == if t.state == Active then 1 else 0
      ensures t.state != Active ==> heap.numberOfTimers < MAX_NUMBER_OF_TIMERS
    {
      assert TimerOk(View(), t.slot);
      assert timers[t.slot] == t.Rec();
      if t.state != Active {
        RoomInHeap(t);
      }
    }

    method Restart(t: Timer)
      requires Valid() && Owns(t) && Enabled(View(), Event.Restart(t.slot))
      modifies t, heap, heap.heap, `timers, `inHeap, `log
      ensures Valid() && View() == Next(old(View()), Event.Restart(t.slot))
      ensures log == Extend(old(log), old(View()), Event.Restart(t.slot))
    {
      ghost var e := Event.Restart(t.slot);
      PlaceBeforeRestart(t);
      QuietStep(log, View(), e);
      log := Did(log, e);
      RestartNow(t);
      assert Tied();
    }

    // ---------- Pooled new and delete ----------

    /** Timer's operator new: a slot from the pool, for a timer of the given task. */
    method AllocateSlot(ghost task: nat) returns (slot: Option<nat>)
      requires PoolTied()
      modifies pool, `log
      ensures pool.Valid() && pool.max == MAX_NUMBER_OF_TIMERS
      ensures slot.None? <==> |timers| == MAX_NUMBER_OF_TIMERS
      ensures slot.None? ==> pool.live == timers.Keys && log == old(log)
      ensures slot.Some? ==>
                && slot.value < MAX_NUMBER_OF_TIMERS && slot.value !in timers
                && pool.live == timers.Keys + {slot.value} && log == Did(old(log), New(slot.value, task))
    {
      assert |timers.Keys| == |timers|;
      slot := pool.GetFromPool();
      if slot.Some? {
        log := Did(log, New(slot.value, task));
      }
    }

    /** The constructor, in place in the slot just taken from the pool. */
    method ConstructIn(slot: nat, task: nat) returns (t: Timer)
      requires HeapAndTimers() && slot !in timers && slot !in inHeap && slot < MAX_NUMBER_OF_TIMERS
      modifies slots[slot], `timers
      ensures Owns(t) && t.slot == slot
      ensures HeapAndTimers() && timers == old(timers)[slot := FreshRec(task)]
    {
      t := slots[slot];
      t.Construct(task);
      timers := timers[slot := FreshRec(task)];
      OutsideHeap(t);
    }

    method ConstructAllocated(slot: nat, task: nat) returns (t: Timer)
      requires HeapAndTimers() && pool.Valid() && pool.max == MAX_NUMBER_OF_TIMERS
      requires slot !in timers && slot !in inHeap && slot < MAX_NUMBER_OF_TIMERS && pool.live == timers.Keys + {slot}
      modifies slots[slot], `timers
      ensures HeapAndTimers() && PoolTied() && Owns(t) && t.slot == slot
      ensures timers == old(timers)[slot := FreshRec(task)]
    {
      t := ConstructIn(slot, task);
      assert pool.Valid();
      assert timers.Keys == old(timers.Keys) + {slot};
    }

    method NewInPool(task: nat) returns (t: Timer?)
      requires HeapAndTimers() && PoolTied() && forall id | id in inHeap :: id in timers
      modifies pool, slots, `timers, `log
      ensures HeapAndTimers() && PoolTied()
      ensures t == null <==> |old(timers)| == MAX_NUMBER_OF_TIMERS
      ensures t == null ==> timers == old(timers) && log == old(log)
      ensures t != null ==>
                && Owns(t) && t.slot !in old(timers) && timers == old(timers)[t.slot := FreshRec(task)]
                && log == Did(old(log), New(t.slot, task))
    {
      var slot := AllocateSlot(task);
      assert HeapTied();
      assert TimersTied();
      t := null;
      if slot.Some? {
        t := ConstructAllocated(slot.value, task);
      }
    }

    /** What new does in memory. */
    method NewNow(task: nat) returns (t: Timer?)
      requires Tied() && forall id | id in inHeap :: id in timers
      modifies pool, slots, `timers, `log
      ensures Tied()
      ensures t == null <==> |old(timers)| == MAX_NUMBER_OF_TIMERS
      ensures t == null ==> View() == old(View()) && log == old(log)
      ensures t != null ==>
                && Owns(t) && t.slot !in old(timers) && View() == Protocol.NewTimer(old(View()), t.slot, task)
                && log == Did(old(log), New(t.slot, task))
    {
      t := NewInPool(task);
      assert QueuesTied();
      assert Tied();
    }

    method NewTimer(task: nat) returns (t: Timer?)
      requires Valid() && task < MAX_TASKS
      modifies pool, slots, `timers, `log
      ensures Valid()
      ensures t == null <==> |old(timers)| == MAX_NUMBER_OF_TIMERS
      ensures t == null ==> View() == old(View()) && log == old(log)
      ensures t != null ==> t.kind == Invalid && t.state == TimerState.Idle && t.pCb == None && t.task == task
      ensures t != null ==>
                && Owns(t) && Enabled(old(View()), New(t.slot, task))
                && View() == Next(old(View()), New(t.slot, task))
                && log == Extend(old(log), old(View()), New(t.slot, task))
    {
      HeapNamesLive();
      ghost var w, l := View(), log;
      t := NewNow(task);
      if t != null {
        QuietStep(l, w, New(t.slot, task));
        assert timers[t.slot] == t.Rec();
      }
    }

    lemma HeapNamesLive()
      requires Inv(View())
      ensures forall id | id in inHeap :: id in timers
    {
      forall id | id in inHeap ensures id in timers {
        assert TimerOk(View(), id);
      }
    }

    /** The first half of ~Timer: out of the heap, unless the timer was never in it or was
        taken out of it by the timer task. */
    method LeaveHeap(t: Timer)
      requires HeapAndTimers() && Owns(t) && t.slot in timers
      modifies heap, heap.heap, `inHeap
      ensures HeapAndTimers()
      ensures var r := timers[t.slot];
              inHeap == if r.kind == Invalid || r.state == Done then old(inHeap) else old(inHeap) - multiset{t.slot}
    {
      assert timers[t.slot] == t.Rec();
      if t.kind == Invalid || t.state == Done {
        // Not in the heap.
      } else {
        RemoveFromHeap(t);
      }
    }

    /** ~Timer: out of the heap, and the callback deleted. */
    method Destructor(t: Timer)
      requires HeapAndTimers() && Owns(t) && t.slot in timers
      modifies t`pCb, heap, heap.heap, `timers, `inHeap, `deleted, `log
      ensures HeapAndTimers() && timers.Keys == old(timers.Keys)
      ensures var r := old(timers)[t.slot];
              && timers == old(timers)[t.slot := r.(pCb := None)]
              && inHeap == (if r.kind == Invalid || r.state == Done then old(inHeap)
                            else old(inHeap) - multiset{t.slot})
              && deleted == old(deleted) + Owned(r)
              && log == Saw(old(log), ObserveOwned(r))
    {
      LeaveHeap(t);
      DeleteCallback(t);
      assert HeapTied();
    }

    /** The slot of a timer goes back to the pool. */
    method FreeSlot(slot: nat)
      requires PoolTied() && slot in timers && slot < MAX_NUMBER_OF_TIMERS
      modifies pool, pool.freeList
      ensures pool.Valid() && pool.max == MAX_NUMBER_OF_TIMERS && pool.live == timers.Keys - {slot}
    {
      pool.RemoveFromPool(slot);
    }

    /** Timer's operator delete. */
    method OperatorDelete(t: Timer)
      requires HeapAndTimers() && PoolTied() && Owns(t) && t.slot in timers
      modifies pool, pool.freeList, `timers, `log
      ensures HeapAndTimers() && PoolTied() && timers == old(timers) - {t.slot}
      ensures log == Saw(old(log), [FreedTimer(t.slot)])
    {
      FreeSlot(t.slot);
      assert HeapTied();
      timers := timers - {t.slot};
      log := Saw(log, [FreedTimer(t.slot)]);
    }

    method DeleteTimer(t: Timer)
      requires HeapAndTimers() && PoolTied() && Owns(t) && t.slot in timers
      modifies t`pCb, heap, heap.heap, pool, pool.freeList, `timers, `inHeap, `deleted, `log
      ensures HeapAndTimers() && PoolTied() && timers == old(timers) - {t.slot}
      ensures var r := old(timers)[t.slot];
              && inHeap == (if r.kind == Invalid || r.state == Done then old(inHeap)
                            else old(inHeap) - multiset{t.slot})
              && deleted == old(deleted) + Owned(r)
              && log == Saw(old(log), ObserveOwned(r) + [FreedTimer(t.slot)])
    {
      SawTwice(log, ObserveOwned(timers[t.slot]), [FreedTimer(t.slot)]);
      ghost var r := timers[t.slot];
      Destructor(t);
      assert PoolTied();
      assert timers[t.slot] == r.(pCb := None);
      OperatorDelete(t);
    }

    /** What delete does in memory. */
    method DeleteNow(t: Timer)
      requires Tied() && Owns(t) && t.slot in timers
      modifies t`pCb, heap, heap.heap, pool, pool.freeList, `timers, `inHeap, `deleted, `log
      ensures Tied() && View() == Destroy(old(View()), t.slot)
      ensures log == Saw(old(log), ObserveOwned(old(timers)[t.slot]) + [FreedTimer(t.slot)])
    {
      DeleteTimer(t);
      assert QueuesTied();
    }

    method Delete(t: Timer)
      requires Valid() && Owns(t) && Enabled(View(), Event.Delete(t.slot))
      modifies t, heap, heap.heap, pool, pool.freeList, `timers, `inHeap, `deleted, `log
      ensures Valid() && View() == Next(old(View()), Event.Delete(t.slot))
      ensures log == Extend(old(log), old(View()), Event.Delete(t.slot))
    {
      ghost var e := Event.Delete(t.slot);
      ChronicleStep(log, View(), e);
      log := Did(log, e);
      DeleteNow(t);
      assert Tied();
    }

    // ---------- The timer task ----------

    /** The index of the fired timer goes, as a message, to the callback context task. */
    method SendExpiry(t: Timer)
      requires SlotsOk() && QueuesTied() && Owns(t) && t.task < MAX_TASKS
      modifies `queues, `sent
      ensures QueuesTied() && sent == old(sent)[t.task := old(sent)[t.task] + [t.slot]]
      ensures |queues[t.task]| > 0 && |queues[t.task][|queues[t.task]| - 1]| == MESSAGE_SIZE
      ensures var message := queues[t.task][|queues[t.task]| - 1];
              MessageFrom(message) == 2 && MessageIndex(message) == t.slot
    {
      MessageRoundTrip(TIMER_TASK, NO_EVENT, t.slot);
      var location := Pool.LocationOf(base, MAX_NUMBER_OF_TIMERS, size, t.slot);
      SlotRecovered(base, MAX_NUMBER_OF_TIMERS, size, t.slot, TIMER_TASK, NO_EVENT);
      var index := Pool.IndexOf(base, MAX_NUMBER_OF_TIMERS, size, location);
      var pMQO := new PosixMessageQueueObject(TIMER_TASK, NO_EVENT, index);
      var buf := new byte[MESSAGE_SIZE];
      pMQO.SerializeToCharBuf(buf);
      queues := queues[t.task := queues[t.task] + [buf[..]]];
      sent := sent[t.task := sent[t.task] + [t.slot]];
    }

    method TakeFired(top: Timer)
      requires HeapAndTimers() && Owns(top) && top.slot in timers
      modifies top`fired, top`state, heap, heap.heap, `timers, `inHeap
      ensures HeapAndTimers() && timers.Keys == old(timers.Keys) && inHeap == old(inHeap) - multiset{top.slot}
      ensures var r := old(timers)[top.slot];
              timers == old(timers)[top.slot := r.(fired := (r.fired + 1) % TWO_32, state := Done)]
    {
      FiredFields(top);
      RemoveFromHeap(top);
    }

    /** A due Active timer at the top: counted, taken out, marked Done, and reported. */
    method Fire(top: Timer)
      requires HeapAndTimers() && QueuesTied() && Owns(top) && top.slot in timers && top.task < MAX_TASKS
      modifies top`fired, top`state, heap, heap.heap, `timers, `inHeap, `queues, `sent, `log
      ensures HeapAndTimers() && QueuesTied() && timers.Keys == old(timers.Keys)
      ensures var r := old(timers)[top.slot];
              && timers == old(timers)[top.slot := r.(fired := (r.fired + 1) % TWO_32, state := Done)]
              && inHeap == old(inHeap) - multiset{top.slot}
              && r.task < MAX_TASKS && sent == old(sent)[r.task := old(sent)[r.task] + [top.slot]]
              && log == Saw(old(log), [Fired(top.slot, r.task, r.whenToFire, clock)])
    {
      ghost var r := timers[top.slot];
      assert r == top.Rec();
      TakeFired(top);
      log := Saw(log, [Fired(top.slot, r.task, r.whenToFire, clock)]);
      SendExpiry(top);
      assert HeapAndTimers();
    }

    method FireDue(top: Timer)
      requires HeapAndTimers() && QueuesTied() && Owns(top) && top.slot in timers && timers[top.slot].task < MAX_TASKS
      modifies top`fired, top`state, heap, heap.heap, `timers, `inHeap, `queues, `sent, `log
      ensures HeapAndTimers() && QueuesTied() && timers.Keys == old(timers.Keys)
      ensures var w := FireTop(old(View()), top.slot);
              timers == w.timers && inHeap == w.heap && sent == w.queues
      ensures var r := old(timers)[top.slot];
              log == Saw(old(log), [Fired(top.slot, r.task, r.whenToFire, clock)])
    {
      assert timers[top.slot] == top.Rec();
      Fire(top);
    }

    /** A due Idle timer at the top: taken out and put back a timeout later, Active. */
    method Rearm(top: Timer)
      requires HeapAndTimers() && Owns(top) && top.slot in timers && inHeap[top.slot] == 1
      modifies top, heap, heap.heap, `timers, `inHeap
      ensures HeapAndTimers() && timers.Keys == old(timers.Keys)
      ensures var w := RearmTop(old(View()), top.slot);
              timers == w.timers && inHeap == w.heap
    {
      RemoveFromHeap(top);
      assert TimersTied();
      RoomAgain(old(heap.entries), top);
      ArmAgain(top);
    }

    // The timer in heap slot 0 is one the protocol allows as the top.
    lemma TopOfHeap(top: Timer)
      requires HeapAndTimers() && Inv(View()) && heap.numberOfTimers > 0 && top == heap.heap[0]
      ensures Owns(top) && IsTop(View(), top.slot) && inHeap[top.slot] == 1
    {
      var s := heap.entries;
      IdBagMembers(s);
      assert s[0].timer == top;
      assert TimerOk(View(), top.slot);
      forall id | id in timers && id in inHeap ensures timers[top.slot].whenToFire <= timers[id].whenToFire {
        var i :| 0 <= i < |s| && s[i].timer.slot == id;
        RootBelow(s, i);
      }
    }

    /** What an iteration that finds `top` due in slot 0 reports. */
    ghost function Firing(top: nat): seq<Obs>
      reads `timers, `clock
      requires top in timers
    {
      var r := timers[top];
      if r.state == Active then [Fired(top, r.task, r.whenToFire, clock)] else []
    }

    /** The timer at the top is due. */
    method HandleDue(top: Timer)
      requires HeapAndTimers() && QueuesTied() && Owns(top) && top.slot in timers && timers[top.slot].task < MAX_TASKS
      requires inHeap[top.slot] == 1 && Due(View(), top.slot)
      modifies top, heap, heap.heap, `timers, `inHeap, `queues, `sent, `log
      ensures HeapAndTimers() && QueuesTied() && timers.Keys == old(timers.Keys)
      ensures var w := IterateOn(old(View()), top.slot);
              timers == w.timers && inHeap == w.heap && sent == w.queues
      ensures log == Saw(old(log), old(Firing(top.slot)))
    {
      assert timers[top.slot] == top.Rec();
      match top.state {
        case Active => FireDue(top);
        case Idle => Rearm(top);
        case Done => // Being handled by the callback context task.
      }
    }

    /** The loop body when there is a timer in slot 0. */
    method LookAtTop(top: Timer)
      requires Tied() && Owns(top) && top.slot in timers && timers[top.slot].task < MAX_TASKS
      requires inHeap[top.slot] == 1
      modifies top, heap, heap.heap, `timers, `inHeap, `queues, `sent, `log
      ensures Tied() && View() == IterateOn(old(View()), top.slot)
      ensures log == Saw(old(log), if Due(old(View()), top.slot) then old(Firing(top.slot)) else [])
    {
      assert timers[top.slot] == top.Rec();
      if top.whenToFire <= clock {
        HandleDue(top);
        assert PoolTied();
      }
    }

    method IterateTop(top: Timer)
      requires Valid() && Owns(top) && IsTop(View(), top.slot) && inHeap[top.slot] == 1
      modifies top, heap, heap.heap, `timers, `inHeap, `queues, `sent, `log
      ensures Valid() && View() == Next(old(View()), Iterate(top.slot))
      ensures log == Extend(old(log), old(View()), Iterate(top.slot))
    {
      ghost var e := Iterate(top.slot);
      ReachedTimersAreLive(View(), e);
      ChronicleStep(log, View(), e);
      log := Did(log, e);
      assert Tied();
      LookAtTop(top);
    }

    method PollHeap()
      requires Valid() && heap.numberOfTimers == 0
      modifies `log
      ensures Valid() && Enabled(old(View()), Poll) && View() == Next(old(View()), Poll)
      ensures log == Extend(old(log), old(View()), Poll)
    {
      assert heap.entries == [];
      QuietStep(log, View(), Poll);
      log := Did(log, Poll);
    }

    /** One iteration of the loop of TimerTask::run; e is the protocol step it takes. */
    method IterateOnce() returns (ghost e: Event)
      requires Valid()
      modifies slots, heap, heap.heap, `timers, `inHeap, `queues, `sent, `log
      ensures Enabled(old(View()), e) && Iteration(old(View()), e)
      ensures Valid() && View() == Next(old(View()), e)
      ensures log == Extend(old(log), old(View()), e)
    {
      if heap.numberOfTimers == 0 {
        e := Poll;
        PollHeap();
      } else {
        var top := heap.heap[0];
        TopOfHeap(top);
        e := Iterate(top.slot);
        IterateTop(top);
      }
    }

    // ---------- The callback context task ----------

    /** The callback runs, then timer and callback are deleted. */
    method TriggerLast(t: Timer)
      requires HeapAndTimers() && PoolTied() && Owns(t) && t.slot in timers && t.pCb.Some?
      modifies t`pCb, heap, heap.heap, pool, pool.freeList, `timers, `inHeap, `deleted, `log
      ensures HeapAndTimers() && PoolTied() && View() == Destroy(old(View()), t.slot)
      ensures var r := old(timers)[t.slot];
              r.pCb.Some? &&
              log == Saw(old(log), ([Triggered(t.slot, r.pCb.value)] + (ObserveOwned(r) + [FreedTimer(t.slot)])))
    {
      ghost var r, l := timers[t.slot], log;
      assert r == t.Rec();
      log := Saw(log, [Triggered(t.slot, t.pCb.value)]);
      DeleteTimer(t);
      SawTwice(l, [Triggered(t.slot, r.pCb.value)], ObserveOwned(r) + [FreedTimer(t.slot)]);
    }

    /** The callback runs, and the timer goes back into the heap. */
    method TriggerAndRearm(t: Timer)
      requires HeapAndTimers() && Owns(t) && t.slot in timers && t.pCb.Some?
      requires t.slot !in inHeap && heap.numberOfTimers < MAX_NUMBER_OF_TIMERS
      modifies t, heap, heap.heap, `timers, `inHeap, `log
      ensures HeapAndTimers() && timers.Keys == old(timers.Keys)
      ensures timers == old(timers)[t.slot := Rearmed(clock, old(timers)[t.slot])]
      ensures inHeap == old(inHeap) + multiset{t.slot}
      ensures old(timers)[t.slot].pCb.Some? && log == Saw(old(log), [Triggered(t.slot, old(timers)[t.slot].pCb.value)])
    {
      ghost var r := timers[t.slot];
      assert r == t.Rec();
      log := Saw(log, [Triggered(t.slot, t.pCb.value)]);
      ArmAgain(t);
    }

    method ProcessACallback(t: Timer) returns (r: Result)
      requires HeapAndTimers() && PoolTied() && Owns(t) && t.slot in timers
      requires t.slot !in inHeap && heap.numberOfTimers < MAX_NUMBER_OF_TIMERS
      modifies t, heap, heap.heap, pool, pool.freeList, `timers, `inHeap, `deleted, `log
      ensures HeapAndTimers() && PoolTied()
      ensures View() == ProcessCallback(old(View()), t.slot)
      ensures log == Saw(old(log), ObserveProcessing(old(timers)[t.slot], t.slot))
      ensures r == if old(timers)[t.slot].kind == Invalid || old(timers)[t.slot].pCb.None? then ERROR else OK
    {
      assert timers[t.slot] == t.Rec();
      if t.kind == Invalid || t.pCb.None? {
        // Never scheduled, or cancelled.
        return ERROR;
      }
      if t.kind == Periodic && (t.fired <= t.howMany || t.howMany == 0) {
        TriggerAndRearm(t);
      } else {
        TriggerLast(t);
      }
      r := OK;
    }

    /** The oldest message of queue q is taken off and decoded to the timer it names. */
    method Receive(q: nat) returns (t: Timer)
      requires SlotsOk() && QueuesTied() && q < MAX_TASKS && sent[q] != [] && sent[q][0] < MAX_NUMBER_OF_TIMERS
      modifies `queues, `sent, `log
      ensures QueuesTied() && sent == old(sent)[q := old(sent)[q][1..]]
      ensures Owns(t) && t.slot == old(sent)[q][0]
      ensures log == Saw(old(log), [Delivered(t.slot, q)])
      ensures var message := old(queues)[q][0];
              |message| == MESSAGE_SIZE && MessageFrom(message) == 2 && MessageIndex(message) == t.slot
    {
      MessageRoundTrip(TIMER_TASK, NO_EVENT, sent[q][0]);
      var message := queues[q][0];
      var buf := new byte[MESSAGE_SIZE](i requires 0 <= i < MESSAGE_SIZE && |message| == MESSAGE_SIZE => message[i]);
      var pMQO := new PosixMessageQueueObject(0, 0, 0);
      assert buf[..] == message;
      pMQO.DeserializeFromCharBuf(buf);
      t := slots[pMQO.shmIndex];
      queues := queues[q := queues[q][1..]];
      sent := sent[q := sent[q][1..]];
      log := Saw(log, [Delivered(t.slot, q)]);
    }

    method ReceiveAndProcess(q: nat) returns (r: Result)
      requires Tied() && q < MAX_TASKS && sent[q] != [] && sent[q][0] in timers
      requires sent[q][0] < MAX_NUMBER_OF_TIMERS && sent[q][0] !in inHeap && heap.numberOfTimers < MAX_NUMBER_OF_TIMERS
      modifies slots, heap, heap.heap, pool, pool.freeList, `queues, `timers, `inHeap, `sent, `deleted, `log
      ensures Tied() && View() == DeliverFrom(old(View()), q)
      ensures var id := old(sent)[q][0];
              && log == Saw(old(log), ([Delivered(id, q)] + ObserveProcessing(old(timers)[id], id)))
              && r == if old(timers)[id].kind == Invalid || old(timers)[id].pCb.None? then ERROR else OK
    {
      ghost var id, rec := sent[q][0], timers[sent[q][0]];
      SawTwice(log, [Delivered(id, q)], ObserveProcessing(rec, id));
      var t := Receive(q);
      assert HeapAndTimers();
      assert PoolTied();
      r := ProcessACallback(t);
      assert QueuesTied();
    }

    // The oldest message of a queue names a live timer that can go back into the heap.
    lemma MessageReady(q: nat)
      requires Valid() && q < MAX_TASKS && sent[q] != []
      ensures var id := sent[q][0];
              id in timers && id < MAX_NUMBER_OF_TIMERS && id !in inHeap && timers[id].kind != Invalid
      ensures heap.numberOfTimers < MAX_NUMBER_OF_TIMERS
    {
      HeadMessage(View(), q);
      IdBagMembers(heap.entries);
    }

    /** The body of a callback context task's receive loop. */
    method DeliverMessage(q: nat) returns (r: Result)
      requires Valid() && Enabled(View(), Deliver(q))
      modifies slots, heap, heap.heap, pool, pool.freeList, `queues, `timers, `inHeap, `sent, `deleted, `log
      ensures Valid() && View() == Next(old(View()), Deliver(q))
      ensures log == Extend(old(log), old(View()), Deliver(q))
      ensures var id := old(sent)[q][0];
              id in old(timers) && r == if old(timers)[id].pCb.None? then ERROR else OK
    {
      ghost var e := Deliver(q);
      ChronicleStep(log, View(), e);
      MessageReady(q);
      log := Did(log, e);
      r := ReceiveAndProcess(q);
    }

    /** Time passes. */
    method Tick(now: nat)
      requires Valid() && Enabled(View(), Event.Tick(now))
      modifies `clock, `log
      ensures Valid() && View() == Next(old(View()), Event.Tick(now))
      ensures log == Extend(old(log), old(View()), Event.Tick(now))
    {
      QuietStep(log, View(), Event.Tick(now));
      log := Did(log, Event.Tick(now));
      clock := now;
      assert HeapAndTimers();
      assert PoolTied();
      assert QueuesTied();
    }
  }
}
