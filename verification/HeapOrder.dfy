/**
 The order of the timer min-heap, on values: the occupied slots of the array as a
 sequence of entries, the two sifts as functions on such sequences, and what each
 of them does to the heap order and to the contents.

 `SiftUp`, `SiftDownWritten` and `RemoveWritten` follow the code; `SiftDown` and
 `RemoveMeant` carry the two repairs (compare a lone left child; sift up as well
 when a removal puts a too-small entry under the hole's parent).
 */
module HeapOrder {

  /** One occupied heap slot: the timer, named by its pool slot, and its firing time. */
  datatype Entry<+T> = Entry(timer: T, when: nat)

  function Parent(i: nat): nat {
    if i == 0 then 0 else (i - 1) / 2
  }

  function Swap<T>(s: seq<T>, i: nat, j: nat): (r: seq<T>)
    requires i < |s| && j < |s|
    ensures |r| == |s|
  {
    s[i := s[j]][j := s[i]]
  }

  predicate Edge<T>(s: seq<Entry<T>>, j: nat)
    requires j < |s|
  {
    s[Parent(j)].when <= s[j].when
  }

  ghost predicate IsHeap<T>(s: seq<Entry<T>>) {
    forall j: nat | j < |s| :: Edge(s, j)
  }

  ghost predicate IsLeast<T>(s: seq<Entry<T>>, e: Entry<T>) {
    forall f | f in s :: e.when <= f.when
  }

  // ---------- Sifting up ----------

  function SiftUp<T>(s: seq<Entry<T>>, i: nat): (r: seq<Entry<T>>)
    requires i < |s|
    ensures |r| == |s|
    decreases i
  {
    if i == 0 || s[Parent(i)].when < s[i].when then s
    else SiftUp(Swap(s, Parent(i), i), Parent(i))
  }

  /** How often the loop body runs when the entry in slot i is sifted up. */
  function UpIterations<T>(s: seq<Entry<T>>, i: nat): nat
    requires i < |s|
    decreases i
  {
    if i == 0 then 0
    else if s[Parent(i)].when < s[i].when then 1
    else 1 + UpIterations(Swap(s, Parent(i), i), Parent(i))
  }

  function Pow2(k: nat): (p: nat)
    ensures p > 0
  {
    if k == 0 then 1 else 2 * Pow2(k - 1)
  }

  // The children of i are no smaller than the parent of i.
  ghost predicate Bridged<T>(s: seq<Entry<T>>, i: nat)
    requires i < |s|
  {
    i > 0 ==>
      && (2 * i + 1 < |s| ==> s[Parent(i)].when <= s[2 * i + 1].when)
      && (2 * i + 2 < |s| ==> s[Parent(i)].when <= s[2 * i + 2].when)
  }

  // The order to restore by sifting up at i: every edge but the one into i is good.
  ghost predicate BrokenAbove<T>(s: seq<Entry<T>>, i: nat) {
    && i < |s|
    && (forall j: nat | j < |s| && j != i :: Edge(s, j))
    && Bridged(s, i)
  }

  lemma SwapKeepsContents<T>(s: seq<T>, i: nat, j: nat)
    requires i < |s| && j < |s|
    ensures multiset(Swap(s, i, j)) == multiset(s)
  {
  }

  lemma SwapUpStep<T>(s: seq<Entry<T>>, i: nat)
    requires BrokenAbove(s, i) && i > 0 && s[i].when <= s[Parent(i)].when
    ensures BrokenAbove(Swap(s, Parent(i), i), Parent(i))
  {
    var p := Parent(i);
    var t := Swap(s, p, i);
    assert Edge(s, p);
    forall j: nat | j < |t| && j != p ensures Edge(t, j) {
      assert j != i ==> Edge(s, j);
    }
    forall j: nat | p > 0 && j < |t| && (j == 2 * p + 1 || j == 2 * p + 2)
      ensures t[Parent(p)].when <= t[j].when
    {
      assert j != i ==> Edge(s, j);
    }
  }

  lemma {:induction false} SiftUpRestores<T>(s: seq<Entry<T>>, i: nat)
    requires BrokenAbove(s, i)
    ensures IsHeap(SiftUp(s, i))
    ensures multiset(SiftUp(s, i)) == multiset(s)
    decreases i
  {
    SiftUpContents(s, i);
    if i > 0 && s[i].when <= s[Parent(i)].when {
      SwapUpStep(s, i);
      SiftUpRestores(Swap(s, Parent(i), i), Parent(i));
    } else {
      assert Edge(s, i);
    }
  }

  // Whatever the order, sifting up loses no timer.
  lemma {:induction false} SiftUpContents<T>(s: seq<Entry<T>>, i: nat)
    requires i < |s|
    ensures multiset(SiftUp(s, i)) == multiset(s)
    decreases i
  {
    if i > 0 && s[i].when <= s[Parent(i)].when {
      SwapKeepsContents(s, Parent(i), i);
      SiftUpContents(Swap(s, Parent(i), i), Parent(i));
    }
  }

  lemma {:induction false} UpIterationsLogarithmic<T>(s: seq<Entry<T>>, i: nat)
    requires i < |s|
    ensures Pow2(UpIterations(s, i)) <= i + 1
    decreases i
  {
    if i > 0 && s[i].when <= s[Parent(i)].when {
      UpIterationsLogarithmic(Swap(s, Parent(i), i), Parent(i));
    }
  }

  // An entry later than its parent stays, after one look; one that is no later than any other
  // rises to the root, past equal ones too, in as many rounds as the bound allows.
  lemma SiftUpRests<T>(s: seq<Entry<T>>, i: nat)
    requires 0 < i < |s| && s[Parent(i)].when < s[i].when
    ensures SiftUp(s, i) == s && UpIterations(s, i) == 1
  {
  }

  lemma {:induction false} LeastRises<T>(s: seq<Entry<T>>, i: nat)
    requires i < |s| && IsLeast(s, s[i])
    ensures SiftUp(s, i)[0] == s[i]
    ensures Pow2(UpIterations(s, i)) <= i + 1 < 2 * Pow2(UpIterations(s, i))
    decreases i
  {
    if i > 0 {
      var t := Swap(s, Parent(i), i);
      assert s[Parent(i)] in s;
      forall f | f in t ensures s[i].when <= f.when {
        assert f in s;
      }
      LeastRises(t, Parent(i));
    }
  }

  // Adding an entry at the end of a heap and sifting it up.
  function Insert<T>(s: seq<Entry<T>>, e: Entry<T>): seq<Entry<T>> {
    SiftUp(s + [e], |s|)
  }

  lemma InsertCorrect<T>(s: seq<Entry<T>>, e: Entry<T>)
    requires IsHeap(s)
    ensures IsHeap(Insert(s, e))
    ensures multiset(Insert(s, e)) == multiset(s) + multiset{e}
    ensures Pow2(UpIterations(s + [e], |s|)) <= |s| + 1
  {
    var t := s + [e];
    forall j: nat | j < |t| && j != |s| ensures Edge(t, j) {
      assert Edge(s, j);
    }
    SiftUpRestores(t, |s|);
    UpIterationsLogarithmic(t, |s|);
  }

  // ---------- Sifting down ----------

  function SmallerChild<T>(s: seq<Entry<T>>, i: nat): (c: nat)
    requires 2 * i + 2 < |s|
    ensures 0 < c < |s| && Parent(c) == i
  {
    if s[2 * i + 1].when < s[2 * i + 2].when then 2 * i + 1 else 2 * i + 2
  }

  predicate SmallerThanParent<T>(s: seq<Entry<T>>, i: nat)
    requires 2 * i + 2 < |s|
  {
    s[2 * i + 1].when < s[i].when || s[2 * i + 2].when < s[i].when
  }

  /** As written: a node without a right child is left alone, even if it has a left one. */
  function SiftDownWritten<T>(s: seq<Entry<T>>, i: nat): (r: seq<Entry<T>>)
    ensures |r| == |s|
    decreases |s| - i
  {
    if 2 * i + 2 >= |s| || !SmallerThanParent(s, i) then s
    else SiftDownWritten(Swap(s, SmallerChild(s, i), i), SmallerChild(s, i))
  }

  /** As meant: the slot the entry in slot i sinks to next, a lone left child included; i
      itself when no child is smaller. */
  function SinkSlot<T>(s: seq<Entry<T>>, i: nat): (c: nat)
    requires i < |s|
    ensures c == i || (0 < c < |s| && Parent(c) == i && s[c].when < s[i].when)
  {
    if 2 * i + 2 < |s| && SmallerThanParent(s, i) then SmallerChild(s, i)
    else if 2 * i + 2 == |s| && s[2 * i + 1].when < s[i].when then 2 * i + 1
    else i
  }

  function SiftDown<T>(s: seq<Entry<T>>, i: nat): (r: seq<Entry<T>>)
    ensures |r| == |s|
    decreases |s| - i
  {
    if i >= |s| || SinkSlot(s, i) == i then s
    else SiftDown(Swap(s, SinkSlot(s, i), i), SinkSlot(s, i))
  }

  // The order to restore by sifting down at i: every edge but those leaving i is good.
  ghost predicate BrokenBelow<T>(s: seq<Entry<T>>, i: nat) {
    && i < |s|
    && (forall j: nat | j < |s| && j != 2 * i + 1 && j != 2 * i + 2 :: Edge(s, j))
    && Bridged(s, i)
  }

  lemma SwapDownStep<T>(s: seq<Entry<T>>, i: nat)
    requires BrokenBelow(s, i) && SinkSlot(s, i) != i
    ensures BrokenBelow(Swap(s, SinkSlot(s, i), i), SinkSlot(s, i))
    ensures multiset(Swap(s, SinkSlot(s, i), i)) == multiset(s)
  {
    var c := SinkSlot(s, i);
    var t := Swap(s, c, i);
    forall j: nat | j < |t| && j != 2 * c + 1 && j != 2 * c + 2 ensures Edge(t, j) {
      if j != 2 * i + 1 && j != 2 * i + 2 {
        assert Edge(s, j);
      }
    }
    forall j: nat | j < |t| && (j == 2 * c + 1 || j == 2 * c + 2)
      ensures t[Parent(c)].when <= t[j].when
    {
      assert Edge(s, j);
    }
    SwapKeepsContents(s, c, i);
  }

  lemma {:induction false} SiftDownRestores<T>(s: seq<Entry<T>>, i: nat)
    requires BrokenBelow(s, i)
    ensures IsHeap(SiftDown(s, i))
    ensures multiset(SiftDown(s, i)) == multiset(s)
    decreases |s| - i
  {
    if SinkSlot(s, i) != i {
      var c := SinkSlot(s, i);
      var t := Swap(s, c, i);
      SwapDownStep(s, i);
      SiftDownRestores(t, c);
    } else {
      forall j: nat | j < |s| ensures Edge(s, j) {
        if j != 2 * i + 1 && j != 2 * i + 2 {
          assert Edge(s, j);
        }
      }
    }
  }

  /** The slots whose edge the sift down as written promises to leave good: all but a lone
      left child in the last slot, which there is when the count is even. */
  predicate Paired<T>(s: seq<Entry<T>>, j: nat) {
    j < |s| && (|s| % 2 == 1 || j < |s| - 1)
  }

  lemma {:induction false} SiftDownWrittenRestoresPairs<T>(s: seq<Entry<T>>, i: nat)
    requires BrokenBelow(s, i)
    ensures forall j: nat | Paired(s, j) :: Edge(SiftDownWritten(s, i), j)
    ensures multiset(SiftDownWritten(s, i)) == multiset(s)
    decreases |s| - i
  {
    if 2 * i + 2 < |s| && SmallerThanParent(s, i) {
      var c := SmallerChild(s, i);
      var t := Swap(s, c, i);
      assert c == SinkSlot(s, i);
      SwapDownStep(s, i);
      SiftDownWrittenRestoresPairs(t, c);
      var r := SiftDownWritten(t, c);
      assert SiftDownWritten(s, i) == r;
      forall j: nat | Paired(s, j) ensures Edge(r, j) {
        assert Paired(t, j);
      }
    } else {
      PairsAtRest(s, i);
    }
  }

  lemma PairsAtRest<T>(s: seq<Entry<T>>, i: nat)
    requires BrokenBelow(s, i)
    requires 2 * i + 2 < |s| ==> !SmallerThanParent(s, i)
    ensures forall j: nat | Paired(s, j) :: Edge(s, j)
  {
    forall j: nat | Paired(s, j) ensures Edge(s, j) {
      if j != 2 * i + 1 && j != 2 * i + 2 {
        assert Edge(s, j);
      }
    }
  }

  /** Whether an entry with key `when`, sifted down from i, gets as far as slot c: every
      slot on the way from i down to c is the preferred child of its parent and has a
      smaller key. Read off the array before the sift, walking up from c. */
  predicate OnSiftPath<T>(s: seq<Entry<T>>, when: nat, i: nat, c: nat)
    requires c < |s|
  {
    || c == i
    || (&& c > i
        && 2 * Parent(c) + 2 < |s| && SmallerChild(s, Parent(c)) == c
        && s[c].when < when
        && OnSiftPath(s, when, i, Parent(c)))
  }

  lemma {:induction false} SiftPathFirstStep<T>(s: seq<Entry<T>>, when: nat, i: nat, c: nat)
    requires c < |s| && i < |s| && c != i
    ensures OnSiftPath(s, when, i, c) <==>
            (&& 2 * i + 2 < |s| && s[SmallerChild(s, i)].when < when
             && OnSiftPath(s, when, SmallerChild(s, i), c))
    decreases c
  {
    if c > i && Parent(c) != i {
      SiftPathFirstStep(s, when, i, Parent(c));
    }
  }

  lemma {:induction false} SiftPathSwap<T>(s: seq<Entry<T>>, when: nat, i: nat, k: nat, c: nat)
    requires c < |s| && i < k < |s|
    ensures OnSiftPath(s, when, k, c) <==> OnSiftPath(Swap(s, k, i), when, k, c)
    decreases c
  {
    if c > k {
      SiftPathSwap(s, when, i, k, Parent(c));
    }
  }

  /** The guard under which sifting down as written falls short: the last slot holds a lone
      left child, the sifted entry comes to rest in its parent's slot, and is larger. */
  predicate LoneChildTrap<T>(s: seq<Entry<T>>, i: nat)
    requires i < |s|
  {
    && |s| % 2 == 0
    && OnSiftPath(s, s[i].when, i, |s| / 2 - 1)
    && s[|s| - 1].when < s[i].when
  }

  lemma SiftPathStep<T>(s: seq<Entry<T>>, i: nat, p: nat)
    requires 2 * i + 2 < |s| && SmallerThanParent(s, i) && p < |s| && p != i
    ensures OnSiftPath(s, s[i].when, i, p) <==>
            OnSiftPath(Swap(s, SmallerChild(s, i), i), s[i].when, SmallerChild(s, i), p)
  {
    SiftPathFirstStep(s, s[i].when, i, p);
    SiftPathSwap(s, s[i].when, i, SmallerChild(s, i), p);
  }

  lemma LoneChildTrapStep<T>(s: seq<Entry<T>>, i: nat)
    requires 2 * i + 2 < |s| && SmallerThanParent(s, i)
    ensures LoneChildTrap(s, i) <==> LoneChildTrap(Swap(s, SmallerChild(s, i), i), SmallerChild(s, i))
  {
    if |s| % 2 == 0 {
      SiftPathStep(s, i, |s| / 2 - 1);
      var c := SmallerChild(s, i);
      var t := Swap(s, c, i);
      assert t[c] == s[i] && t[|s| - 1] == s[|s| - 1];
    }
  }

  lemma LoneChildAtRest<T>(s: seq<Entry<T>>, i: nat)
    requires BrokenBelow(s, i) && |s| % 2 == 0
    requires 2 * i + 2 < |s| ==> !SmallerThanParent(s, i)
    ensures Edge(s, |s| - 1) <==> !LoneChildTrap(s, i)
  {
    var p := |s| / 2 - 1;
    assert Parent(|s| - 1) == p;
    if i != p {
      SiftPathFirstStep(s, s[i].when, i, p);
      assert Edge(s, |s| - 1);
    }
  }

  lemma WrittenStep<T>(s: seq<Entry<T>>, i: nat)
    requires BrokenBelow(s, i) && 2 * i + 2 < |s| && SmallerThanParent(s, i)
    ensures var c := SmallerChild(s, i);
            && BrokenBelow(Swap(s, c, i), c)
            && (LoneChildTrap(s, i) <==> LoneChildTrap(Swap(s, c, i), c))
            && SiftDownWritten(s, i) == SiftDownWritten(Swap(s, c, i), c)
  {
    assert SmallerChild(s, i) == SinkSlot(s, i);
    SwapDownStep(s, i);
    LoneChildTrapStep(s, i);
  }

  // As written, the edge into a lone left child is bad after the sift exactly in the trap.
  lemma {:induction false} SiftDownWrittenLoneChild<T>(s: seq<Entry<T>>, i: nat)
    requires BrokenBelow(s, i) && |s| % 2 == 0
    ensures Edge(SiftDownWritten(s, i), |s| - 1) <==> !LoneChildTrap(s, i)
    decreases |s| - i
  {
    if 2 * i + 2 < |s| && SmallerThanParent(s, i) {
      var c := SmallerChild(s, i);
      var t := Swap(s, c, i);
      WrittenStep(s, i);
      SiftDownWrittenLoneChild(t, c);
      assert SiftDownWritten(s, i) == SiftDownWritten(t, c);
    } else {
      LoneChildAtRest(s, i);
    }
  }

  lemma SiftDownWrittenExact<T>(s: seq<Entry<T>>, i: nat)
    requires BrokenBelow(s, i)
    ensures IsHeap(SiftDownWritten(s, i)) <==> !LoneChildTrap(s, i)
  {
    SiftDownWrittenRestoresPairs(s, i);
    var r := SiftDownWritten(s, i);
    if |s| % 2 == 0 {
      SiftDownWrittenLoneChild(s, i);
    }
    if !LoneChildTrap(s, i) {
      forall j: nat | j < |r| ensures Edge(r, j) {
        assert Paired(s, j) || j == |s| - 1;
      }
    }
  }

  // ---------- Which child goes up ----------

  /** Slot c holds the child of i that is to go up: smaller than the parent, and smaller than
      the left child or, the right one, no larger. */
  predicate GoesUp<T>(s: seq<Entry<T>>, i: nat, c: nat) {
    && 2 * i + 2 < |s| && (c == 2 * i + 1 || c == 2 * i + 2) && s[c].when < s[i].when
    && if c == 2 * i + 1 then s[c].when < s[2 * i + 2].when else s[c].when <= s[2 * i + 1].when
  }

  // As written, the right child goes up when it is smaller than its parent and no larger than
  // the left one; the left child when it is smaller than both; and the sift goes on below.
  lemma SiftDownWrittenTakes<T>(s: seq<Entry<T>>, i: nat, c: nat)
    requires GoesUp(s, i, c)
    ensures SiftDownWritten(s, i) == SiftDownWritten(Swap(s, c, i), c)
    ensures SiftDownWritten(s, i)[i] == s[c]
  {
    assert SmallerChild(s, i) == c;
    SiftDownWrittenKeepsAbove(Swap(s, c, i), c, i);
  }

  // When neither does, nothing moves.
  lemma SiftDownWrittenRests<T>(s: seq<Entry<T>>, i: nat)
    requires i < |s| && !GoesUp(s, i, 2 * i + 1) && !GoesUp(s, i, 2 * i + 2)
    ensures SiftDownWritten(s, i) == s
  {
  }

  // Keys 1, 2, 2, 3, 5 minus the top become 2, 2, 5, 3, a heap: of two equal children the right
  // one goes up.
  lemma EqualChildren()
    ensures var s := [Entry(0, 1), Entry(1, 2), Entry(2, 2), Entry(3, 3), Entry(4, 5)];
            && IsHeap(s)
            && RemoveWritten(s, 0) == [Entry(2, 2), Entry(1, 2), Entry(4, 5), Entry(3, 3)]
            && IsHeap(RemoveWritten(s, 0))
  {
    var s := [Entry(0, 1), Entry(1, 2), Entry(2, 2), Entry(3, 3), Entry(4, 5)];
    var u := [Entry(4, 5), Entry(1, 2), Entry(2, 2), Entry(3, 3)];
    var r := [Entry(2, 2), Entry(1, 2), Entry(4, 5), Entry(3, 3)];
    assert Unplug(s, 0) == u;
    assert GoesUp(u, 0, 2);
    SiftDownWrittenTakes(u, 0, 2);
    SiftDownWrittenRests(r, 2);
    assert Swap(u, 2, 0) == r;
    assert Edge(s, 0) && Edge(s, 1) && Edge(s, 2) && Edge(s, 3) && Edge(s, 4);
    assert Edge(r, 0) && Edge(r, 1) && Edge(r, 2) && Edge(r, 3);
  }

  lemma SinkSlotIs<T>(s: seq<Entry<T>>, i: nat, c: nat)
    requires GoesUp(s, i, c) || (c == 2 * i + 1 == |s| - 1 && s[c].when < s[i].when)
    ensures SinkSlot(s, i) == c
  {
  }

  // As meant, the sift moves the same child, and a lone left one that is smaller.
  lemma SiftDownTakes<T>(s: seq<Entry<T>>, i: nat, c: nat)
    requires GoesUp(s, i, c) || (c == 2 * i + 1 == |s| - 1 && s[c].when < s[i].when)
    ensures SiftDown(s, i) == SiftDown(Swap(s, c, i), c)
  {
    SinkSlotIs(s, i, c);
  }

  lemma SiftDownRests<T>(s: seq<Entry<T>>, i: nat)
    requires i < |s| && !GoesUp(s, i, 2 * i + 1) && !GoesUp(s, i, 2 * i + 2)
    requires 2 * i + 1 == |s| - 1 ==> s[i].when <= s[2 * i + 1].when
    ensures SiftDown(s, i) == s
  {
  }

  // ---------- Least element ----------

  lemma {:induction false} RootBelow<T>(s: seq<Entry<T>>, j: nat)
    requires IsHeap(s) && j < |s|
    ensures s[0].when <= s[j].when
    decreases j
  {
    if j > 0 {
      assert Edge(s, j);
      RootBelow(s, Parent(j));
    }
  }

  lemma RootIsLeast<T>(s: seq<Entry<T>>)
    requires IsHeap(s) && s != []
    ensures IsLeast(s, s[0])
  {
    forall f | f in s ensures s[0].when <= f.when {
      var j: nat :| j < |s| && s[j] == f;
      RootBelow(s, j);
    }
  }

  // ---------- Removal ----------

  /** The last entry moved into slot k, and the last slot given up. */
  function Unplug<T>(s: seq<T>, k: nat): (r: seq<T>)
    requires k < |s|
    ensures |r| == |s| - 1
  {
    s[k := s[|s| - 1]][..|s| - 1]
  }

  function RemoveWritten<T>(s: seq<Entry<T>>, k: nat): (r: seq<Entry<T>>)
    requires k < |s|
    ensures |r| == |s| - 1
  {
    SiftDownWritten(Unplug(s, k), k)
  }

  function Resift<T>(s: seq<Entry<T>>, k: nat): (r: seq<Entry<T>>)
    ensures |r| == |s|
  {
    if k < |s| && s[k].when < s[Parent(k)].when then SiftUp(s, k) else SiftDown(s, k)
  }

  function RemoveMeant<T>(s: seq<Entry<T>>, k: nat): (r: seq<Entry<T>>)
    requires k < |s|
    ensures |r| == |s| - 1
  {
    Resift(Unplug(s, k), k)
  }

  lemma UnplugContents<T>(s: seq<T>, k: nat)
    requires k < |s|
    ensures multiset(Unplug(s, k)) == multiset(s) - multiset{s[k]}
  {
    var t := s[k := s[|s| - 1]];
    var last := s[|s| - 1];
    assert t == Unplug(s, k) + [last];
    var m := multiset(Unplug(s, k));
    assert multiset(t) == m + multiset{last};
    assert multiset(t) == multiset(s) - multiset{s[k]} + multiset{last};
    assert m == m + multiset{last} - multiset{last};
  }

  lemma UnplugOrder<T>(s: seq<Entry<T>>, k: nat)
    requires IsHeap(s) && k < |s| - 1
    ensures var u := Unplug(s, k);
            if u[k].when < u[Parent(k)].when then BrokenAbove(u, k) else BrokenBelow(u, k)
  {
    var u := Unplug(s, k);
    assert Edge(s, k);
    forall j: nat | j < |u| && j != k && j != 2 * k + 1 && j != 2 * k + 2 ensures Edge(u, j) {
      assert Edge(s, j);
    }
    forall j: nat | j < |u| && (j == 2 * k + 1 || j == 2 * k + 2)
      ensures k > 0 ==> u[Parent(k)].when <= u[j].when
      ensures u[k].when < u[Parent(k)].when ==> Edge(u, j)
    {
      assert Edge(s, j);
    }
  }

  lemma RemoveMeantCorrect<T>(s: seq<Entry<T>>, k: nat)
    requires IsHeap(s) && k < |s|
    ensures IsHeap(RemoveMeant(s, k))
    ensures multiset(RemoveMeant(s, k)) == multiset(s) - multiset{s[k]}
  {
    var u := Unplug(s, k);
    UnplugContents(s, k);
    if k == |u| {
      forall j: nat | j < |u| ensures Edge(u, j) {
        assert Edge(s, j);
      }
    } else {
      UnplugOrder(s, k);
      if u[k].when < u[Parent(k)].when {
        SiftUpRestores(u, k);
      } else {
        SiftDownRestores(u, k);
      }
    }
  }

  // Removal as written leaves a heap exactly when the last slot itself was removed, or
  // the moved entry is not below the hole's parent and does not fall into the trap of
  // the lone left child. The contents are right in every case.
  lemma RemoveWrittenExact<T>(s: seq<Entry<T>>, k: nat)
    requires IsHeap(s) && k < |s|
    ensures var u := Unplug(s, k);
            IsHeap(RemoveWritten(s, k)) <==>
              k == |u| || (u[Parent(k)].when <= u[k].when && !LoneChildTrap(u, k))
    ensures multiset(RemoveWritten(s, k)) == multiset(s) - multiset{s[k]}
  {
    var u := Unplug(s, k);
    UnplugContents(s, k);
    if k == |u| {
      forall j: nat | j < |u| ensures Edge(u, j) {
        assert Edge(s, j);
      }
    } else {
      UnplugOrder(s, k);
      if u[k].when < u[Parent(k)].when {
        if 2 * k + 2 < |u| {
          assert Edge(u, 2 * k + 1) && Edge(u, 2 * k + 2);
        }
        assert !Edge(RemoveWritten(s, k), k);
      } else {
        SiftDownWrittenExact(u, k);
        SiftDownWrittenRestoresPairs(u, k);
      }
    }
  }

  lemma {:induction false} SiftDownWrittenContents<T>(s: seq<Entry<T>>, i: nat)
    ensures multiset(SiftDownWritten(s, i)) == multiset(s)
    decreases |s| - i
  {
    if 2 * i + 2 < |s| && SmallerThanParent(s, i) {
      SwapKeepsContents(s, SmallerChild(s, i), i);
      SiftDownWrittenContents(Swap(s, SmallerChild(s, i), i), SmallerChild(s, i));
    }
  }

  // Whatever the order, a removal as written takes out the entry of its slot and no other.
  lemma RemoveWrittenContents<T>(s: seq<Entry<T>>, k: nat)
    requires k < |s|
    ensures multiset(RemoveWritten(s, k)) == multiset(s) - multiset{s[k]}
  {
    UnplugContents(s, k);
    SiftDownWrittenContents(Unplug(s, k), k);
  }

  // Taking the top as written: slot 0 is least again unless exactly two timers remain in
  // the wrong order, and the whole array is a heap when the new count is odd.
  lemma TopRemovalWritten<T>(s: seq<Entry<T>>)
    requires IsHeap(s) && s != []
    ensures var r := RemoveWritten(s, 0);
            && (r == [] || IsLeast(r, r[0]) <==> |r| != 2 || s[2].when <= s[1].when)
            && (|r| % 2 == 1 ==> IsHeap(r))
  {
    var u, r := Unplug(s, 0), RemoveWritten(s, 0);
    if |r| % 2 == 1 {
      UnplugOrder(s, 0);
      SiftDownWrittenExact(u, 0);
      RootIsLeast(r);
    } else if |r| == 2 {
      assert r == [s[2], s[1]];
      assert r[0] in r && r[1] in r;
    } else if |r| > 2 {
      TopRemovalWrittenEven(s);
    }
  }

  lemma TopRemovalWrittenEven<T>(s: seq<Entry<T>>)
    requires IsHeap(s) && |s| > 4 && |s| % 2 == 1
    ensures IsLeast(RemoveWritten(s, 0), RemoveWritten(s, 0)[0])
  {
    var u, r := Unplug(s, 0), RemoveWritten(s, 0);
    var n := |r|;
    UnplugOrder(s, 0);
    SiftDownWrittenRestoresPairs(u, 0);
    SiftDownWrittenRoot(u);
    // The last slot is not reached by the sift; its entry was below slot 1 or slot 2.
    SiftDownWrittenKeepsLast(u, 0);
    ChildOfRootBelow(s, n - 1);
    var t := r[..n - 1];
    forall i: nat | i < |t| ensures Edge(t, i) {
      assert Paired(u, i);
      assert Edge(r, i);
    }
    forall f | f in r ensures r[0].when <= f.when {
      var j: nat :| j < n && r[j] == f;
      if j < n - 1 {
        RootBelow(t, j);
      }
    }
  }

  lemma {:induction false} SiftDownWrittenKeepsLast<T>(s: seq<Entry<T>>, i: nat)
    requires s != [] && |s| % 2 == 0 && i < |s| - 1
    ensures SiftDownWritten(s, i)[|s| - 1] == s[|s| - 1]
    decreases |s| - i
  {
    if 2 * i + 2 < |s| && SmallerThanParent(s, i) {
      SiftDownWrittenKeepsLast(Swap(s, SmallerChild(s, i), i), SmallerChild(s, i));
    }
  }

  lemma {:induction false} SiftDownWrittenKeepsAbove<T>(s: seq<Entry<T>>, i: nat, j: nat)
    requires j < i && j < |s|
    ensures SiftDownWritten(s, i)[j] == s[j]
    decreases |s| - i
  {
    if 2 * i + 2 < |s| && SmallerThanParent(s, i) {
      SiftDownWrittenKeepsAbove(Swap(s, SmallerChild(s, i), i), SmallerChild(s, i), j);
    }
  }

  lemma SiftDownWrittenRoot<T>(s: seq<Entry<T>>)
    requires |s| > 2
    ensures SiftDownWritten(s, 0)[0].when <= s[1].when
    ensures SiftDownWritten(s, 0)[0].when <= s[2].when
  {
    if SmallerThanParent(s, 0) {
      SiftDownWrittenKeepsAbove(Swap(s, SmallerChild(s, 0), 0), SmallerChild(s, 0), 0);
    }
  }

  lemma {:induction false} ChildOfRootBelow<T>(s: seq<Entry<T>>, j: nat)
    requires IsHeap(s) && 0 < j < |s|
    ensures s[1].when <= s[j].when || (|s| > 2 && s[2].when <= s[j].when)
    decreases j
  {
    if j > 2 {
      assert Edge(s, j);
      ChildOfRootBelow(s, Parent(j));
    }
  }

  // Three timers 1, 2, 3 minus the top become 3, 2.
  lemma TopRemovalWrittenCounterexample()
    ensures var s := [Entry(0, 1), Entry(1, 2), Entry(2, 3)];
            && IsHeap(s)
            && RemoveWritten(s, 0) == [Entry(2, 3), Entry(1, 2)]
            && !IsHeap(RemoveWritten(s, 0))
  {
    var s := [Entry(0, 1), Entry(1, 2), Entry(2, 3)];
    assert Unplug(s, 0) == [Entry(2, 3), Entry(1, 2)];
    assert !Edge(RemoveWritten(s, 0), 1);
  }

  // Where a removal as written leaves a heap, the repair changes nothing.
  lemma RepairAgrees<T>(s: seq<Entry<T>>, k: nat)
    requires IsHeap(s) && k < |s| && IsHeap(RemoveWritten(s, k))
    ensures RemoveMeant(s, k) == RemoveWritten(s, k)
  {
    var u := Unplug(s, k);
    RemoveWrittenExact(s, k);
    if k < |u| {
      UnplugOrder(s, k);
      SiftsAgree(u, k);
    }
  }

  lemma {:induction false} SiftsAgree<T>(s: seq<Entry<T>>, i: nat)
    requires BrokenBelow(s, i) && !LoneChildTrap(s, i)
    ensures SiftDown(s, i) == SiftDownWritten(s, i)
    decreases |s| - i
  {
    if 2 * i + 2 < |s| && SmallerThanParent(s, i) {
      WrittenStep(s, i);
      SiftsAgree(Swap(s, SmallerChild(s, i), i), SmallerChild(s, i));
    } else if 2 * i + 2 == |s| {
      LoneChildAtRest(s, i);
    }
  }

  // Seven timers lose the heap order when the one in slot 3 is removed: the last one, 4,
  // moves below 10 and is not sifted up.
  lemma RemovalWrittenCounterexample()
    ensures var s := [Entry(0, 1), Entry(1, 10), Entry(2, 2), Entry(3, 11), Entry(4, 12), Entry(5, 3), Entry(6, 4)];
            && IsHeap(s)
            && RemoveWritten(s, 3)
               == [Entry(0, 1), Entry(1, 10), Entry(2, 2), Entry(6, 4), Entry(4, 12), Entry(5, 3)]
            && !IsHeap(RemoveWritten(s, 3))
            && IsHeap(RemoveMeant(s, 3))
  {
    var s := [Entry(0, 1), Entry(1, 10), Entry(2, 2), Entry(3, 11), Entry(4, 12), Entry(5, 3), Entry(6, 4)];
    var u := [Entry(0, 1), Entry(1, 10), Entry(2, 2), Entry(6, 4), Entry(4, 12), Entry(5, 3)];
    assert Edge(s, 0) && Edge(s, 1) && Edge(s, 2) && Edge(s, 3) && Edge(s, 4) && Edge(s, 5) && Edge(s, 6);
    assert IsHeap(s);
    assert Unplug(s, 3) == u;
    assert !Edge(u, 3);
    RemoveMeantCorrect(s, 3);
  }

  // ---------- Taking the top until nothing is left ----------

  function Drain<T>(s: seq<Entry<T>>): (d: seq<Entry<T>>)
    decreases |s|
  {
    if s == [] then [] else [s[0]] + Drain(RemoveMeant(s, 0))
  }

  ghost predicate Sorted<T>(s: seq<Entry<T>>) {
    forall i, j | 0 <= i < j < |s| :: s[i].when <= s[j].when
  }

  lemma SortedCons<T>(e: Entry<T>, s: seq<Entry<T>>)
    requires Sorted(s) && IsLeast(s, e)
    ensures Sorted([e] + s)
  {
  }

  // Repeatedly taking the top yields the heap's own entries, in order of firing time.
  lemma {:induction false} DrainSorts<T>(s: seq<Entry<T>>)
    requires IsHeap(s)
    ensures multiset(Drain(s)) == multiset(s)
    ensures Sorted(Drain(s))
    decreases |s|
  {
    if s != [] {
      var r := RemoveMeant(s, 0);
      RemoveMeantCorrect(s, 0);
      DrainSorts(r);
      assert IsLeast(Drain(r), s[0]) by {
        RootIsLeast(s);
        forall e | e in Drain(r) ensures s[0].when <= e.when {
          assert e in multiset(Drain(r));
          assert e in multiset(s);
        }
      }
      SortedCons(s[0], Drain(r));
    }
  }
}
