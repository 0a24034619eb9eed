/**
 The repaired heap as a priority queue: adding and removing timers on the array refines
 adding to and removing from a bag, with a least element always in slot 0.
 */
module PriorityQueue {
  import opened HeapOrder
  import opened HeapSearch

  datatype Op<T> = Add(e: Entry<T>) | Remove(e: Entry<T>)

  function Apply<T(==)>(s: seq<Entry<T>>, op: Op<T>): seq<Entry<T>> {
    match op
    case Add(e) => Insert(s, e)
    case Remove(e) =>
      var k := SearchMeant(s, |s|, e, 0);
      if k.None? then s else RemoveMeant(s, k.value)
  }

  function ApplyAll<T(==)>(s: seq<Entry<T>>, ops: seq<Op<T>>): seq<Entry<T>>
    decreases ops
  {
    if ops == [] then s else ApplyAll(Apply(s, ops[0]), ops[1..])
  }

  ghost function Model<T>(m: multiset<Entry<T>>, op: Op<T>): multiset<Entry<T>> {
    match op
    case Add(e) => m + multiset{e}
    case Remove(e) => m - multiset{e}
  }

  ghost function ModelAll<T>(m: multiset<Entry<T>>, ops: seq<Op<T>>): multiset<Entry<T>>
    decreases ops
  {
    if ops == [] then m else ModelAll(Model(m, ops[0]), ops[1..])
  }

  lemma ApplyRefines<T>(s: seq<Entry<T>>, op: Op<T>)
    requires IsHeap(s)
    ensures IsHeap(Apply(s, op))
    ensures multiset(Apply(s, op)) == Model(multiset(s), op)
  {
    match op
    case Add(e) => InsertCorrect(s, e);
    case Remove(e) =>
      SearchMeantExact(s, |s|, e, 0);
      var k := SearchMeant(s, |s|, e, 0);
      if k.Some? {
        RemoveMeantCorrect(s, k.value);
      } else {
        assert e !in s;
        assert multiset(s)[e] == 0;
      }
  }

  // Every sequence of additions and removals, of any timers at any positions, leaves a heap
  // that holds exactly what the bag holds, with a least entry in slot 0.
  lemma {:induction false} Refinement<T>(s: seq<Entry<T>>, ops: seq<Op<T>>)
    requires IsHeap(s)
    ensures var r := ApplyAll(s, ops);
            && IsHeap(r)
            && multiset(r) == ModelAll(multiset(s), ops)
            && (r != [] ==> IsLeast(r, r[0]))
    decreases ops
  {
    if ops == [] {
      if s != [] {
        RootIsLeast(s);
      }
    } else {
      ApplyRefines(s, ops[0]);
      Refinement(Apply(s, ops[0]), ops[1..]);
    }
  }
}
