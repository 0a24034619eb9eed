/**
 The timer min-heap on its array, shared by the tasks.

 The methods named after the code do what the code does. `SiftDownFrom`, `Find` and
 `RemoveFromHeap` carry the repairs that make the heap a priority queue: the lone left
 child is compared, a removal also sifts up, and the search looks at every occupied slot
 and at no other.
 */
module MinHeap {
  import opened Common
  import opened HeapOrder
  import opened HeapSearch
  import opened PriorityQueue
  import opened Timers
  import WrittenHeap

  // The slots of the array are pointers that may be null; what is done to the occupied ones
  // does not depend on that.

  lemma {:induction false} SameSiftUp(s: seq<Entry<Timer>>, i: nat)
    requires i < |s|
    ensures SiftUp<Timer?>(s, i) == SiftUp<Timer>(s, i)
    decreases i
  {
    if i > 0 && s[i].when <= s[Parent(i)].when {
      SameSiftUp(Swap(s, Parent(i), i), Parent(i));
    }
  }

  lemma {:induction false} SameSiftDown(s: seq<Entry<Timer>>, i: nat)
    ensures SiftDownWritten<Timer?>(s, i) == SiftDownWritten<Timer>(s, i)
    decreases |s| - i
  {
    if 2 * i + 2 < |s| && SmallerThanParent<Timer>(s, i) {
      var c := SmallerChild<Timer>(s, i);
      assert c == SmallerChild<Timer?>(s, i);
      SameSiftDown(Swap<Entry<Timer>>(s, c, i), c);
    }
  }

  lemma SameInsert(s: seq<Entry<Timer>>, e: Entry<Timer>)
    ensures Insert<Timer?>(s, e) == Insert<Timer>(s, e)
  {
    SameSiftUp(s + [e], |s|);
  }

  lemma SameRemoval(s: seq<Entry<Timer>>, k: nat)
    requires k < |s|
    ensures RemoveWritten<Timer?>(s, k) == RemoveWritten<Timer>(s, k)
  {
    SameSiftDown(Unplug<Entry<Timer>>(s, k), k);
  }

  class TimerMinHeap {
    const heap: array<Timer?>
    var numberOfTimers: nat
    ghost var entries: seq<Entry<Timer>>

    /** The first |entries| slots hold timers, and entries says which, and their firing
        times. */
    ghost predicate Tied()
      reads this, heap, heap[..]`whenToFire
    {
      && heap.Length == MAX_NUMBER_OF_TIMERS && |entries| <= heap.Length
      && forall i | 0 <= i < |entries| ::
           heap[i] != null && entries[i].timer == heap[i] && entries[i].when == heap[i].whenToFire
    }

    ghost predicate Valid()
      reads this, heap, heap[..]`whenToFire
    {
      Tied() && |entries| == numberOfTimers
    }

    /** The whole array, stale slots included. */
    ghost function Whole(): WrittenHeap.HeapArray<Timer?>
      reads this, heap
    {
      WrittenHeap.HeapArray(heap[..], entries)
    }

    constructor ()
      ensures Valid() && fresh(heap) && entries == []
    {
      heap := new Timer?[MAX_NUMBER_OF_TIMERS](_ => null);
      numberOfTimers := 0;
      entries := [];
    }

    method SwapSlots(i: nat, j: nat)
      requires Tied() && i < |entries| && j < |entries| && i != j
      modifies this`entries, heap
      ensures Tied() && entries == Swap(old(entries), i, j)
      ensures forall k | |entries| <= k < heap.Length :: heap[k] == old(heap[k])
    {
      var tmp := heap[i];
      heap[i] := heap[j];
      heap[j] := tmp;
      entries := Swap(entries, i, j);
    }

    /** The loop of upHeapify. */
    method SiftUpFrom(start: nat) returns (ghost iterations: nat)
      requires Tied() && 0 < start < |entries|
      modifies this`entries, heap
      ensures Tied() && entries == SiftUp(old(entries), start)
      ensures forall k | |entries| <= k < heap.Length :: heap[k] == old(heap[k])
      ensures iterations == UpIterations(old(entries), start)
    {
      var heaped := false;
      var index := start;
      iterations := 0;
      while !heaped
        invariant Tied() && |entries| == |old(entries)| && index < |entries| && (!heaped ==> 0 < index)
        invariant if heaped then entries == SiftUp(old(entries), start)
                  else SiftUp(entries, index) == SiftUp(old(entries), start)
        invariant forall k | |entries| <= k < heap.Length :: heap[k] == old(heap[k])
        invariant iterations + (if heaped then 0 else UpIterations(entries, index)) == UpIterations(old(entries), start)
        decreases !heaped, index
      {
        var parent := (index - 1) / 2;
        if heap[parent].whenToFire < heap[index].whenToFire {
          heaped := true;
        } else {
          SwapSlots(parent, index);
          index := parent;
        }
        if parent == 0 {
          heaped := true;
        }
        iterations := iterations + 1;
      }
    }

    method UpHeapify(pTimer: Timer) returns (r: Result, ghost iterations: nat)
      requires Valid() && numberOfTimers < MAX_NUMBER_OF_TIMERS
      modifies this, heap
      ensures Valid() && r == OK
      ensures entries == Apply(old(entries), Add(pTimer.Key()))
      ensures forall k | numberOfTimers <= k < heap.Length :: heap[k] == old(heap[k])
      ensures WrittenHeap.Step(old(Whole()), WrittenHeap.Add(pTimer.Key())) == Some(Whole())
      ensures Pow2(iterations) <= old(numberOfTimers) + 1
    {
      ghost var h, key := Whole(), pTimer.Key();
      SameInsert(entries, key);
      var index := numberOfTimers;
      heap[index] := pTimer;
      entries := entries + [pTimer.Key()];
      iterations := 0;
      UpIterationsLogarithmic(entries, index);
      if index != 0 {
        iterations := SiftUpFrom(index);
      }
      numberOfTimers := numberOfTimers + 1;
      assert heap[..] == WrittenHeap.Added<Timer?>(h, key).slots;
      r := OK;
    }

    /** As written: reads one slot past the last timer, and leaves a lone left child alone. */
    method DownHeapifyFromIndex(index: nat)
      requires Valid() && numberOfTimers < heap.Length && heap[numberOfTimers] != null
      requires index < heap.Length && heap[index] != null
      modifies this`entries, heap
      ensures Valid() && entries == SiftDownWritten(old(entries), index)
      ensures forall k | numberOfTimers <= k < heap.Length :: heap[k] == old(heap[k])
    {
      var heaped := false;
      var parent: nat := index;
      while !heaped
        invariant Valid() && |entries| == |old(entries)| && heap[numberOfTimers] != null
        invariant parent < heap.Length && heap[parent] != null
        invariant forall k | numberOfTimers <= k < heap.Length :: heap[k] == old(heap[k])
        invariant if heaped then entries == SiftDownWritten(old(entries), index)
                  else SiftDownWritten(entries, parent) == SiftDownWritten(old(entries), index)
        decreases !heaped, heap.Length - parent
      {
        var left, right := 2 * parent + 1, 2 * parent + 2;
        var parentFiringTime := heap[parent].whenToFire;
        var leftFiringTime, rightFiringTime := 0, 0;
        if left < numberOfTimers {
          leftFiringTime := heap[left].whenToFire;
        } else {
          heaped := true;
        }
        if right <= numberOfTimers {
          rightFiringTime := heap[right].whenToFire;
        } else {
          heaped := true;
        }
        if left >= numberOfTimers || right >= numberOfTimers {
          return;
        }
        if leftFiringTime < parentFiringTime || rightFiringTime < parentFiringTime {
          assert SmallerThanParent(entries, parent);
          assert SmallerChild(entries, parent) == if leftFiringTime < rightFiringTime then left else right;
          if leftFiringTime < rightFiringTime {
            SwapSlots(left, parent);
            parent := left;
          } else {
            SwapSlots(right, parent);
            parent := right;
          }
        } else {
          heaped := true;
        }
      }
    }

    /** The last timer moved into the slot of the one to go. */
    method FillHole(hole: nat)
      requires Valid() && 0 < numberOfTimers && hole < heap.Length
      modifies this, heap
      ensures Valid() && numberOfTimers == old(numberOfTimers) - 1
      ensures heap[hole] == old(heap[numberOfTimers - 1]) != null && heap[numberOfTimers] != null
      ensures forall k | numberOfTimers <= k < heap.Length && k != hole :: heap[k] == old(heap[k])
      ensures entries == if hole < old(numberOfTimers) then Unplug(old(entries), hole)
                         else old(entries)[..numberOfTimers]
    {
      heap[hole] := heap[numberOfTimers - 1];
      numberOfTimers := numberOfTimers - 1;
      entries := if hole <= numberOfTimers then Unplug(entries, hole) else entries[..numberOfTimers];
    }

    /** The common tail of both removals as written: the last timer moves into the hole and
        is sifted down, and only down. */
    method TakeOut(hole: nat)
      requires Valid() && (hole < numberOfTimers || numberOfTimers == 1) && hole < heap.Length
      modifies this, heap
      ensures Valid() && numberOfTimers == old(numberOfTimers) - 1
      ensures entries == if hole < old(numberOfTimers) then RemoveWritten(old(entries), hole) else []
      ensures forall k | numberOfTimers <= k < heap.Length ::
                heap[k] == if k == hole then old(heap[numberOfTimers - 1]) else old(heap[k])
    {
      FillHole(hole);
      DownHeapifyFromIndex(hole);
    }

    method RemoveFromIndex(index: nat) returns (pTimer: Timer)
      requires Valid() && index < numberOfTimers
      modifies this, heap
      ensures Valid() && pTimer == old(entries)[index].timer
      ensures entries == RemoveWritten(old(entries), index)
    {
      pTimer := heap[index];
      TakeOut(index);
    }

    /** What a removal as written does to the array h when its search ends with k; None where
        the code goes on to read outside the array, and the model stops. */
    ghost predicate Outcome(h: WrittenHeap.HeapArray<Timer?>, k: Option<nat>, r: Option<Result>)
      requires |h.entries| <= |h.slots|
      reads this, heap
    {
      && (k.Some? ==> k.value < |h.slots| && (k.value < |h.entries| || |h.entries| <= 1))
      && match WrittenHeap.TakenOut(h, k)
         case None => r == None && Whole() == h
         case Some(h') => Whole() == h' && r == Some(if k.None? then ERROR else OK)
    }

    // The last timer has moved into the hole, and been sifted down.
    lemma TakenOutIs(s: seq<Entry<Timer>>, a: seq<Timer?>, hole: nat)
      requires Tied() && 0 < |s| <= |a| == heap.Length && hole < |a| && (hole < |s| || |s| == 1)
      requires entries == if hole < |s| then RemoveWritten<Timer>(s, hole) else []
      requires forall k | |entries| <= k < heap.Length :: heap[k] == if k == hole then a[|s| - 1] else a[k]
      ensures WrittenHeap.TakenOut<Timer?>(WrittenHeap.HeapArray(a, s), Some(hole)) == Some(Whole())
    {
      if hole < |s| {
        SameRemoval(s, hole);
      }
      assert heap[..] == WrittenHeap.Overlay<Timer?>(a[hole := a[|s| - 1]], entries);
    }

    /** The comparisons of one level of the search as written. */
    method ExamineLevel(pTimer: Timer, index: nat) returns (k: Option<nat>)
      requires Valid() && (index == 0 || 2 * index <= numberOfTimers + 1)
      ensures k == Examine(heap[..], numberOfTimers, pTimer, index)
    {
      var left, right := 2 * index + 1, 2 * index + 2;
      var last := LastSlot(numberOfTimers);
      if heap[index] == pTimer {
        k := Some(index);
      } else if left < last && heap[left] == pTimer {
        k := Some(left);
      } else if right < last && heap[right] == pTimer {
        k := Some(right);
      } else {
        k := None;
      }
    }

    /** As written. None when there is no timer and the search matches a stale slot: the code
        then goes on to read the array at 2^32 - 1. With one timer, a match in stale slot 1
        gives up the one timer there is. */
    method RemoveSpecificFromIndex(pTimer: Timer, index: nat) returns (r: Option<Result>)
      requires Valid() && (index == 0 || 2 * index <= numberOfTimers + 1)
      modifies this, heap
      ensures Valid()
      ensures Outcome(old(Whole()), SearchWritten(old(heap[..]), old(numberOfTimers), pTimer, index), r)
      ensures r == None <==> old(numberOfTimers) == 0 && pTimer in old(heap[..3])
      decreases numberOfTimers + 1 - index
    {
      var k := ExamineLevel(pTimer, index);
      SearchWrittenFrom(heap[..], numberOfTimers, pTimer as Timer?, index);
      if numberOfTimers == 0 {
        assert heap[..][..3] == heap[..3];
        SearchWrittenEmpty(heap[..], pTimer as Timer?);
      }
      if k.Some? && numberOfTimers == 0 {
        r := None;
      } else if k.Some? {
        ghost var s, a := entries, heap[..];
        TakeOut(k.value);
        TakenOutIs(s, a, k.value);
        r := Some(OK);
      } else if 2 * index + 1 > numberOfTimers {
        r := Some(ERROR);
      } else {
        r := RemoveSpecificFromIndex(pTimer, index + 1);
      }
    }

    /** The removal of any timer, from the first slot on, is the step of the heap as written. */
    method RemoveWrittenFromHeap(pTimer: Timer) returns (r: Option<Result>)
      requires Valid()
      modifies this, heap
      ensures Valid()
      ensures WrittenHeap.Step(old(Whole()), WrittenHeap.Remove(pTimer)) == if r.None? then None else Some(Whole())
    {
      r := RemoveSpecificFromIndex(pTimer, 0);
    }

    // With two or more distinct timers, the search as written finds and removes exactly the
    // ones that are not in the last slot, or any when there are at most three; what it
    // removes is that timer and nothing else.
    lemma RemovesAllButLast(pTimer: Timer)
      requires Valid() && 2 <= numberOfTimers
      requires forall i, j | 0 <= i < j < numberOfTimers :: heap[i] != heap[j]
      ensures var k := SearchWritten(heap[..], numberOfTimers, pTimer, 0);
              && (k.Some? <==>
                    exists i :: 0 <= i < numberOfTimers && heap[i] == pTimer
                                && (i < numberOfTimers - 1 || numberOfTimers <= 3))
              && (k.Some? ==>
                    && k.value < numberOfTimers && entries[k.value] == pTimer.Key()
                    && multiset(RemoveWritten(entries, k.value)) == multiset(entries) - multiset{pTimer.Key()})
    {
      var a: seq<Timer?> := heap[..];
      SearchWrittenMissesLast(a, numberOfTimers, pTimer as Timer?);
      var k := SearchWritten(a, numberOfTimers, pTimer, 0);
      if k.Some? {
        assert pTimer in a[..numberOfTimers];
        RemoveWrittenContents(entries, k.value);
      }
    }

    // ---------- With the repairs ----------

    method FindSinkSlot(parent: nat) returns (child: nat)
      requires Valid() && parent < numberOfTimers
      ensures child == SinkSlot(entries, parent)
    {
      var left, right := 2 * parent + 1, 2 * parent + 2;
      var parentFiringTime := heap[parent].whenToFire;
      child := parent;
      if left < numberOfTimers {
        var leftFiringTime := heap[left].whenToFire;
        var rightFiringTime := if right < numberOfTimers then heap[right].whenToFire else leftFiringTime + 1;
        if leftFiringTime < parentFiringTime || rightFiringTime < parentFiringTime {
          child := if leftFiringTime < rightFiringTime then left else right;
        }
      }
    }

    method SiftDownFrom(index: nat)
      requires Valid()
      modifies this`entries, heap
      ensures Valid() && entries == SiftDown(old(entries), index)
    {
      var parent := index;
      var heaped := index >= numberOfTimers;
      while !heaped
        invariant Valid() && |entries| == |old(entries)| && (!heaped ==> parent < numberOfTimers)
        invariant if heaped then entries == SiftDown(old(entries), index)
                  else SiftDown(entries, parent) == SiftDown(old(entries), index)
        decreases !heaped, numberOfTimers - parent
      {
        var child := FindSinkSlot(parent);
        if child == parent {
          heaped := true;
        } else {
          SwapSlots(child, parent);
          parent := child;
        }
      }
    }

    /** The slot of a timer among the occupied ones, looked for in the order of the code. */
    method Find(pTimer: Timer) returns (k: Option<nat>)
      requires Valid()
      ensures k == SearchMeant(heap[..], numberOfTimers, pTimer, 0)
    {
      var index := 0;
      while index < numberOfTimers
        invariant SearchMeant(heap[..], numberOfTimers, pTimer, index)
                  == SearchMeant(heap[..], numberOfTimers, pTimer, 0)
      {
        var left, right := 2 * index + 1, 2 * index + 2;
        if heap[index] == pTimer {
          return Some(index);
        }
        if left < numberOfTimers && heap[left] == pTimer {
          return Some(left);
        }
        if right < numberOfTimers && heap[right] == pTimer {
          return Some(right);
        }
        index := index + 1;
      }
      return None;
    }

    lemma {:induction false} FindsEntry(pTimer: Timer, i: nat)
      requires Valid()
      ensures SearchMeant(heap[..], numberOfTimers, pTimer, i) == SearchMeant(entries, numberOfTimers, pTimer.Key(), i)
      decreases numberOfTimers - i
    {
      if i < numberOfTimers {
        FindsEntry(pTimer, i + 1);
      }
    }

    method AddToHeap(pTimer: Timer) returns (r: Result)
      requires Valid() && numberOfTimers < MAX_NUMBER_OF_TIMERS
      modifies this, heap
      ensures Valid() && r == OK
      ensures entries == Apply(old(entries), Add(pTimer.Key()))
    {
      ghost var iterations;
      r, iterations := UpHeapify(pTimer);
    }

    method RemoveFromHeap(pTimer: Timer) returns (r: Result)
      requires Valid()
      modifies this, heap
      ensures Valid()
      ensures entries == Apply(old(entries), Remove(pTimer.Key()))
      ensures r == if pTimer.Key() in old(entries) then OK else ERROR
    {
      var k := Find(pTimer);
      FindsEntry(pTimer, 0);
      SearchMeantExact(entries, numberOfTimers, pTimer.Key(), 0);
      r := ERROR;
      if k.Some? {
        RemoveAt(k.value);
        r := OK;
      }
    }

    method RemoveAt(hole: nat)
      requires Valid() && hole < numberOfTimers
      modifies this, heap
      ensures Valid() && entries == RemoveMeant(old(entries), hole)
    {
      FillHole(hole);
      if 0 < hole < numberOfTimers && heap[hole].whenToFire < heap[(hole - 1) / 2].whenToFire {
        ghost var iterations := SiftUpFrom(hole);
      } else {
        SiftDownFrom(hole);
      }
    }
  }
}
