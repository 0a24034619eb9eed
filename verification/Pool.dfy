/**
 The memory pool in shared memory: the counter, the head and the links of the free list,
 and where the slots lie behind them.
 */
module Pool {
  import opened Common
  import opened FreeList

  // ---------- Geometry ----------

  /** Counter, first free slot and one link per slot, in 32-bit arithmetic. */
  function ManagementArea(max: nat): nat {
    (4 + 8 + 8 * max) % TWO_32
  }

  function TotalSize(max: nat, size: nat): nat {
    (ManagementArea(max) + max * size % TWO_32) % TWO_32
  }

  function LocationOf(base: nat, max: nat, size: nat, index: nat): nat {
    base + ManagementArea(max) + index * size
  }

  /** The quotient truncates toward zero and its result is read as unsigned. */
  function IndexOf(base: nat, max: nat, size: nat, location: nat): nat
    requires size > 0
  {
    var d := location - base - ManagementArea(max);
    (if d >= 0 then d / size else -(-d / size)) % TWO_64
  }

  predicate Fits(max: nat, size: nat) {
    12 + 8 * max + max * size < TWO_32
  }

  /** The address lies inside slot i. */
  predicate Inside(base: nat, max: nat, size: nat, i: nat, location: nat) {
    LocationOf(base, max, size, i) <= location < LocationOf(base, max, size, i) + size
  }

  lemma MulStep(a: nat, b: nat, size: nat)
    requires a < b
    ensures a * size + size <= b * size
  {
    assert (b - a - 1) * size >= 0;
    assert b * size == a * size + size + (b - a - 1) * size;
  }

  lemma QuotientAt(size: nat, i: nat, r: nat)
    requires size > 0 && r < size
    ensures (i * size + r) / size == i
  {
    var q := (i * size + r) / size;
    assert i * size + r == q * size + (i * size + r) % size;
    if q < i {
      MulStep(q, i, size);
    } else if q > i {
      MulStep(i, q, size);
    }
  }

  // Any address inside a slot maps to that slot's index.
  lemma InsideMapsToIndex(base: nat, max: nat, size: nat, i: nat, location: nat)
    requires size > 0 && i < TWO_64 && Inside(base, max, size, i, location)
    ensures IndexOf(base, max, size, location) == i
  {
    QuotientAt(size, i, location - LocationOf(base, max, size, i));
  }

  // And an address of the slot area that maps to an index lies inside that slot.
  lemma IndexMapsInside(base: nat, max: nat, size: nat, i: nat, location: nat)
    requires size > 0 && Fits(max, size) && i < max
    requires LocationOf(base, max, size, 0) <= location < LocationOf(base, max, size, max)
    ensures IndexOf(base, max, size, location) == i <==> Inside(base, max, size, i, location)
  {
    var d := location - base - ManagementArea(max);
    var q := d / size;
    assert d == q * size + d % size;
    QuotientBelow(size, q, max, d);
    assert Inside(base, max, size, q, location);
    InsideMapsToIndex(base, max, size, q, location);
    if Inside(base, max, size, i, location) {
      InsideMapsToIndex(base, max, size, i, location);
    }
  }

  lemma QuotientBelow(size: nat, q: nat, max: nat, d: nat)
    requires size > 0 && q * size <= d < max * size && max < TWO_32
    ensures q < max
  {
    if q > max {
      MulStep(max, q, size);
    }
  }

  lemma NoWrap(x: nat)
    requires x < TWO_32
    ensures x % TWO_32 == x
  {
  }

  lemma SizesExact(max: nat, size: nat)
    requires Fits(max, size)
    ensures ManagementArea(max) == 12 + 8 * max
    ensures TotalSize(max, size) == 12 + 8 * max + max * size
  {
    var area := max * size;
    NoWrap(12 + 8 * max);
    NoWrap(area);
    NoWrap(12 + 8 * max + area);
  }

  // The mapped size is reckoned modulo 2^32.
  lemma SizeWraps(max: nat, size: nat)
    ensures TotalSize(max, size) == (12 + 8 * max + max * size) % TWO_32
  {
    SumWraps(12 + 8 * max, max * size);
  }

  lemma SumWraps(a: nat, b: nat)
    ensures (a % TWO_32 + b % TWO_32) % TWO_32 == (a + b) % TWO_32
  {
    assert a + b == (a / TWO_32 + b / TWO_32) * TWO_32 + (a % TWO_32 + b % TWO_32);
  }

  // When the whole pool fits in 32 bits, slots do not overlap each other or the management
  // area, and end within the mapped size.
  lemma SlotsDisjoint(base: nat, max: nat, size: nat, i: nat, j: nat)
    requires Fits(max, size) && i < j < max
    ensures base + 12 + 8 * max <= LocationOf(base, max, size, i)
    ensures LocationOf(base, max, size, i) + size <= LocationOf(base, max, size, j)
    ensures LocationOf(base, max, size, j) + size <= base + TotalSize(max, size)
  {
    SizesExact(max, size);
    MulStep(i, j, size);
    MulStep(j, max, size);
  }

  // The slots lie one after the other, from right behind the management area to the very end
  // of the mapped size.
  lemma SlotsFill(base: nat, max: nat, size: nat, i: nat)
    requires Fits(max, size)
    ensures LocationOf(base, max, size, 0) == base + 12 + 8 * max
    ensures LocationOf(base, max, size, i + 1) == LocationOf(base, max, size, i) + size
    ensures LocationOf(base, max, size, max) == base + TotalSize(max, size)
  {
    SizesExact(max, size);
  }

  // An address in front of the slots maps to slot 0 when it is less than a slot away, and wraps
  // around when it is not.
  lemma IndexBelow(base: nat, max: nat, size: nat, location: nat, k: nat)
    requires size > 0 && location < LocationOf(base, max, size, 0) && k < TWO_64
    requires k * size <= LocationOf(base, max, size, 0) - location < k * size + size
    ensures IndexOf(base, max, size, location) == if k == 0 then 0 else TWO_64 - k
  {
    assert LocationOf(base, max, size, 0) == base + ManagementArea(max);
    var far: nat := base + ManagementArea(max) - location;
    QuotientAt(size, k, far - k * size);
    assert far / size == k;
    var wrapped: int := k;
    if k > 0 {
      assert (0 - wrapped) % TWO_64 == TWO_64 - wrapped;
    }
  }

  // ---------- Allocation ----------

  class MemoryPool {
    const max: nat
    const freeList: array<nat>
    var numberAllocated: nat
    var firstFree: nat
    ghost var live: set<nat>

    ghost function State(): PoolState
      reads this, freeList
    {
      PoolState(firstFree, freeList[..], numberAllocated)
    }

    ghost predicate Valid()
      reads this, freeList
    {
      freeList.Length == max && PoolOk(State()) && AreLive(State(), live)
    }

    constructor (max: nat)
      ensures Valid() && fresh(freeList) && this.max == max
      ensures State() == Initial(max) && live == {}
    {
      this.max := max;
      freeList := new nat[max];
      numberAllocated := 0;
      firstFree := 0;
      live := {};
      new;
      for i := 0 to max
        invariant numberAllocated == firstFree == 0 && live == {}
        invariant forall k | 0 <= k < i :: freeList[k] == k + 1
      {
        freeList[i] := i + 1;
      }
      assert freeList[..] == Initial(max).links;
      assert State() == Initial(max);
      InitialPool(max);
      LiveAreLive(State());
    }

    method GetFromPool() returns (slot: Option<nat>)
      requires Valid()
      modifies this
      ensures Valid()
      ensures State() == Get(old(State())).0 && slot == Get(old(State())).1
      ensures slot.None? <==> |old(live)| == max
      ensures slot.None? ==> live == old(live)
      ensures slot.Some? ==> slot.value < max && slot.value !in old(live) && live == old(live) + {slot.value}
    {
      ghost var p := State();
      GetCorrect(p);
      LiveCount(p);
      assert live == Live(p);
      if numberAllocated == max {
        slot := None;
      } else {
        slot := Some(firstFree);
        firstFree := freeList[firstFree];
        numberAllocated := numberAllocated + 1;
        live := live + {slot.value};
      }
      assert State() == Get(p).0;
      assert live == Live(State());
      LiveAreLive(State());
    }

    /** Sound exactly when the slot is live, which is left to the caller; with nothing
        allocated the call has no effect. */
    method RemoveFromPool(index: nat)
      requires Valid() && index < max
      modifies this, freeList
      ensures freeList.Length == max && State() == Put(old(State()), index)
      ensures old(numberAllocated) > 0 ==> (PoolOk(State()) <==> index in old(live))
      ensures index in old(live) ==> Valid() && live == old(live) - {index}
    {
      if numberAllocated > 0 {
        PutExact(State(), index);
      }
      assert live == Live(State());
      if index in live {
        PutLive(State(), index);
      }
      if numberAllocated == 0 {
        return;
      }
      freeList[index] := firstFree;
      firstFree := index;
      numberAllocated := numberAllocated - 1;
      live := live - {index};
      LiveAreLive(State());
      assert freeList[..] == old(freeList[..])[index := old(firstFree)];
    }
  }
}
