/**
 The heap array exactly as the code leaves it, without the repairs: which timers it holds
 after any sequence of additions and removals, whatever has become of the order, and even
 when a timer is in it twice.

 The whole array counts, because the search as written also looks at stale slots.
 */
module WrittenHeap {
  import opened Common
  import opened HeapOrder
  import opened HeapSearch

  /** All slots of the array, and the entries of the occupied ones, which come first. */
  datatype HeapArray<T> = HeapArray(slots: seq<T>, entries: seq<Entry<T>>)

  /** The heap holds pointers, so a firing time set in a timer changes wherever it is. */
  datatype Op<T> = Add(e: Entry<T>) | Remove(timer: T) | SetKey(timer: T, when: nat)

  /** The array once its occupied slots hold the given entries. */
  function Overlay<T>(slots: seq<T>, entries: seq<Entry<T>>): (r: seq<T>)
    requires |entries| <= |slots|
    ensures |r| == |slots|
    ensures forall i | 0 <= i < |r| :: r[i] == if i < |entries| then entries[i].timer else slots[i]
  {
    seq(|slots|, i requires 0 <= i < |slots| => if i < |entries| then entries[i].timer else slots[i])
  }

  ghost predicate ArrayOk<T>(h: HeapArray<T>) {
    && |h.entries| <= |h.slots| && 3 <= |h.slots| < TWO_32
    && forall i | 0 <= i < |h.entries| :: h.slots[i] == h.entries[i].timer
  }

  function Added<T>(h: HeapArray<T>, e: Entry<T>): HeapArray<T>
    requires |h.entries| < |h.slots|
  {
    HeapArray(Overlay(h.slots, Insert(h.entries, e)), Insert(h.entries, e))
  }

  /** The array after the search has ended with k; None when the code goes on to read the
      array outside its bounds. */
  function TakenOut<T>(h: HeapArray<T>, k: Option<nat>): Option<HeapArray<T>>
    requires |h.entries| <= |h.slots|
    requires k.Some? ==> k.value < |h.slots| && (k.value < |h.entries| || |h.entries| <= 1)
  {
    var n := |h.entries|;
    if k.None? then Some(h)
    else if n == 0 then None
    else
      var entries := if k.value < n then RemoveWritten(h.entries, k.value) else [];
      Some(HeapArray(Overlay(h.slots[k.value := h.slots[n - 1]], entries), entries))
  }

  function Rekeyed<T(==)>(s: seq<Entry<T>>, p: T, when: nat): (r: seq<Entry<T>>)
    ensures |r| == |s|
    ensures forall i | 0 <= i < |s| :: r[i] == if s[i].timer == p then Entry(p, when) else s[i]
  {
    seq(|s|, i requires 0 <= i < |s| => if s[i].timer == p then Entry(p, when) else s[i])
  }

  lemma FoundInReach<T>(h: HeapArray<T>, p: T)
    requires ArrayOk(h)
    ensures var k := SearchWritten(h.slots, |h.entries|, p, 0);
            k.Some? ==> k.value < |h.slots| && (k.value < |h.entries| || |h.entries| <= 1)
  {
    SearchWrittenExact(h.slots, |h.entries|, p);
  }

  /** None when the code goes outside the array, to read or to write. */
  function Step<T(==)>(h: HeapArray<T>, op: Op<T>): Option<HeapArray<T>>
    requires ArrayOk(h)
  {
    match op
    case Add(e) => if |h.entries| < |h.slots| then Some(Added(h, e)) else None
    case Remove(p) =>
      FoundInReach(h, p);
      TakenOut(h, SearchWritten(h.slots, |h.entries|, p, 0))
    case SetKey(p, when) => Some(h.(entries := Rekeyed(h.entries, p, when)))
  }

  // ---------- What the heap holds ----------

  function Timers<T>(s: seq<Entry<T>>): (r: seq<T>)
    ensures |r| == |s| && forall i | 0 <= i < |s| :: r[i] == s[i].timer
  {
    seq(|s|, i requires 0 <= i < |s| => s[i].timer)
  }

  ghost function Bag<T>(h: HeapArray<T>): multiset<T> {
    multiset(Timers(h.entries))
  }

  ghost function Model<T>(m: multiset<T>, op: Op<T>): multiset<T> {
    match op
    case Add(e) => m + multiset{e.timer}
    case Remove(p) => m - multiset{p}
    case SetKey(_, _) => m
  }

  /** The timer to remove is the last of four or more: the search does not look there. */
  predicate Missed<T(==)>(h: HeapArray<T>, op: Op<T>) {
    var n := |h.entries|;
    op.Remove? && 4 <= n <= |h.slots| && h.slots[n - 1] == op.timer && op.timer !in h.slots[..n - 1]
  }

  /** The timer to remove is not in the heap, but in stale slot 1 beside the only one. */
  predicate Strayed<T(==)>(h: HeapArray<T>, op: Op<T>) {
    op.Remove? && |h.entries| == 1 && 2 <= |h.slots| && h.slots[0] != op.timer && h.slots[1] == op.timer
  }

  /** The heap is empty, and a stale slot holds the timer to remove; or it is full. */
  predicate Faults<T(==)>(h: HeapArray<T>, op: Op<T>) {
    || (op.Remove? && |h.entries| == 0 && 3 <= |h.slots| && op.timer in h.slots[..3])
    || (op.Add? && |h.entries| == |h.slots|)
  }

  /** The operation as the code carries it out: a missed removal removes nothing, a strayed
      one the only timer there is. */
  function Understood<T(==)>(h: HeapArray<T>, op: Op<T>): seq<Op<T>> {
    if Missed(h, op) then []
    else if Strayed(h, op) then [Remove(h.slots[0])]
    else [op]
  }

  ghost function ModelAll<T>(m: multiset<T>, ops: seq<Op<T>>): multiset<T>
    decreases ops
  {
    if ops == [] then m else ModelAll(Model(m, ops[0]), ops[1..])
  }

  /** The elements but the one at k. */
  function Rest<T>(s: seq<T>, k: nat): seq<T>
    requires k < |s|
  {
    s[..k] + s[k + 1..]
  }

  lemma RestContents<T>(s: seq<T>, k: nat)
    requires k < |s|
    ensures multiset(s) == multiset(Rest(s, k)) + multiset{s[k]}
  {
    assert s == s[..k] + [s[k]] + s[k + 1..];
  }

  lemma RestTimers<T>(s: seq<Entry<T>>, k: nat)
    requires k < |s|
    ensures Timers(Rest(s, k)) == Rest(Timers(s), k)
  {
  }

  lemma PlusOne<T>(m: multiset<T>, n: multiset<T>, x: T)
    requires m + multiset{x} == n + multiset{x}
    ensures m == n
  {
    assert m == (m + multiset{x}) - multiset{x};
    assert n == (n + multiset{x}) - multiset{x};
  }

  // The same entries hold the same timers.
  lemma {:induction false} SameTimers<T>(a: seq<Entry<T>>, b: seq<Entry<T>>)
    requires multiset(a) == multiset(b)
    ensures multiset(Timers(a)) == multiset(Timers(b))
    decreases |a|
  {
    if a == [] {
      assert |multiset(b)| == |b|;
    } else {
      assert a[0] in multiset(b);
      var k: nat :| k < |b| && b[k] == a[0];
      RestContents(a, 0);
      RestContents(b, k);
      PlusOne(multiset(Rest(a, 0)), multiset(Rest(b, k)), a[0]);
      SameTimers(Rest(a, 0), Rest(b, k));
      RestTimers(a, 0);
      RestTimers(b, k);
      RestContents(Timers(a), 0);
      RestContents(Timers(b), k);
    }
  }

  lemma OccupiedAre<T>(h: HeapArray<T>)
    requires ArrayOk(h)
    ensures Timers(h.entries) == h.slots[..|h.entries|]
  {
  }

  lemma AddStep<T>(h: HeapArray<T>, e: Entry<T>)
    requires ArrayOk(h) && |h.entries| < |h.slots|
    ensures ArrayOk(Added(h, e)) && Bag(Added(h, e)) == Bag(h) + multiset{e.timer}
    ensures multiset(Added(h, e).entries) == multiset(h.entries) + multiset{e}
  {
    SiftUpContents(h.entries + [e], |h.entries|);
    SameTimers(Insert(h.entries, e), h.entries + [e]);
    assert Timers(h.entries + [e]) == Timers(h.entries) + [e.timer];
  }

  lemma MinusOne<T>(m: multiset<T>, n: multiset<T>, x: T)
    requires m == n + multiset{x}
    ensures n == m - multiset{x}
  {
  }

  lemma RemovedTimers<T>(s: seq<Entry<T>>, k: nat)
    requires k < |s|
    ensures multiset(Timers(RemoveWritten(s, k))) == multiset(Timers(s)) - multiset{s[k].timer}
  {
    RemoveWrittenContents(s, k);
    RestContents(s, k);
    MinusOne(multiset(s), multiset(Rest(s, k)), s[k]);
    SameTimers(RemoveWritten(s, k), Rest(s, k));
    RestTimers(s, k);
    RestContents(Timers(s), k);
    MinusOne(multiset(Timers(s)), multiset(Rest(Timers(s), k)), s[k].timer);
  }

  // Taking out the entry in slot k, and no other.
  lemma TakeStep<T>(h: HeapArray<T>, k: nat)
    requires ArrayOk(h) && k < |h.entries|
    ensures var r := TakenOut(h, Some(k));
            && r.Some? && ArrayOk(r.value) && Bag(r.value) == Bag(h) - multiset{h.slots[k]}
            && multiset(r.value.entries) == multiset(h.entries) - multiset{h.entries[k]}
  {
    RemoveWrittenContents(h.entries, k);
    RemovedTimers(h.entries, k);
  }

  // Above the timers left, the slots keep what they held; the last timer stays in its old slot.
  lemma StaleKept<T>(h: HeapArray<T>, k: nat)
    requires ArrayOk(h) && k < |h.entries|
    ensures var r := TakenOut(h, Some(k));
            && r.Some? && |r.value.slots| == |h.slots| && |r.value.entries| == |h.entries| - 1
            && r.value.slots[|h.entries| - 1..] == h.slots[|h.entries| - 1..]
  {
  }

  // Two timers or more: the search finds an occurrence in the heap, unless it is missed.
  lemma SearchAmongMany<T>(h: HeapArray<T>, p: T)
    requires ArrayOk(h) && |h.entries| >= 2
    ensures var k := SearchWritten(h.slots, |h.entries|, p, 0);
            && (k.None? <==> Missed(h, Remove(p)) || p !in h.slots[..|h.entries|])
            && (k.Some? ==> k.value < |h.entries| && h.slots[k.value] == p)
  {
    var n := |h.entries|;
    SearchWrittenExact(h.slots, n, p);
    assert p in h.slots[..n] ==> p in h.slots[..n - 1] || h.slots[n - 1] == p;
  }

  lemma SearchBesideOne<T>(h: HeapArray<T>, p: T)
    requires ArrayOk(h) && |h.entries| == 1
    ensures SearchWritten(h.slots, 1, p, 0)
            == if h.slots[0] == p then Some(0) else if Strayed(h, Remove(p)) then Some(1) else None
  {
    if h.slots[0] != p {
      SearchWrittenStaleMatch(h.slots, p);
    }
  }

  /** The state after an operation as written: it holds what the operation as understood
      leaves, and is right exactly when a removal neither missed nor strayed. */
  ghost predicate Follows<T>(h: HeapArray<T>, op: Op<T>, h': HeapArray<T>) {
    && ArrayOk(h') && |h'.slots| == |h.slots|
    && Bag(h') == ModelAll(Bag(h), Understood(h, op))
    && (Bag(h') == Model(Bag(h), op) <==> !Missed(h, op) && !Strayed(h, op))
  }

  lemma BagIs<T>(h: HeapArray<T>, p: T)
    requires ArrayOk(h)
    ensures p in Bag(h) <==> p in h.slots[..|h.entries|]
  {
    OccupiedAre(h);
  }

  lemma ManyFound<T>(h: HeapArray<T>, p: T, k: nat)
    requires ArrayOk(h) && |h.entries| >= 2 && SearchWritten(h.slots, |h.entries|, p, 0) == Some(k)
    ensures Step(h, Remove(p)).Some? && Follows(h, Remove(p), Step(h, Remove(p)).value)
  {
    SearchAmongMany(h, p);
    TakeStep(h, k);
    assert p in h.slots[..|h.entries|] by {
      assert h.slots[..|h.entries|][k] == p;
    }
    assert !Missed(h, Remove(p));
  }

  lemma ManyNotFound<T>(h: HeapArray<T>, p: T)
    requires ArrayOk(h) && |h.entries| >= 2 && SearchWritten(h.slots, |h.entries|, p, 0) == None
    ensures Step(h, Remove(p)).Some? && Follows(h, Remove(p), Step(h, Remove(p)).value)
  {
    SearchAmongMany(h, p);
    BagIs(h, p);
    if Missed(h, Remove(p)) {
      assert h.slots[..|h.entries|][|h.entries| - 1] == p;
    }
  }

  lemma RemoveFromMany<T>(h: HeapArray<T>, p: T)
    requires ArrayOk(h) && |h.entries| >= 2
    ensures Step(h, Remove(p)).Some? && Follows(h, Remove(p), Step(h, Remove(p)).value)
  {
    var k := SearchWritten(h.slots, |h.entries|, p, 0);
    if k.Some? {
      ManyFound(h, p, k.value);
    } else {
      ManyNotFound(h, p);
    }
  }

  lemma OnlyOne<T>(h: HeapArray<T>)
    requires ArrayOk(h) && |h.entries| == 1
    ensures Bag(h) == multiset{h.slots[0]}
  {
    assert Timers(h.entries) == [h.slots[0]];
  }

  lemma OnlyOneTaken<T>(h: HeapArray<T>)
    requires ArrayOk(h) && |h.entries| == 1
    ensures var op := Remove(h.slots[0]);
            Step(h, op).Some? && Follows(h, op, Step(h, op).value)
  {
    SearchBesideOne(h, h.slots[0]);
    TakeStep(h, 0);
  }

  lemma OnlyOneStrayed<T>(h: HeapArray<T>, p: T)
    requires ArrayOk(h) && Strayed(h, Remove(p))
    ensures Step(h, Remove(p)).Some? && Follows(h, Remove(p), Step(h, Remove(p)).value)
  {
    SearchBesideOne(h, p);
    OnlyOne(h);
    var h' := Step(h, Remove(p)).value;
    assert h'.entries == [] && Bag(h') == multiset{};
    assert ModelAll(Bag(h), [Remove(h.slots[0])]) == multiset{};
  }

  lemma OnlyOneKept<T>(h: HeapArray<T>, p: T)
    requires ArrayOk(h) && |h.entries| == 1 && h.slots[0] != p && !Strayed(h, Remove(p))
    ensures Step(h, Remove(p)).Some? && Follows(h, Remove(p), Step(h, Remove(p)).value)
  {
    SearchBesideOne(h, p);
    OnlyOne(h);
  }

  lemma RemoveFromOne<T>(h: HeapArray<T>, p: T)
    requires ArrayOk(h) && |h.entries| == 1
    ensures Step(h, Remove(p)).Some? && Follows(h, Remove(p), Step(h, Remove(p)).value)
  {
    if h.slots[0] == p {
      OnlyOneTaken(h);
    } else if Strayed(h, Remove(p)) {
      OnlyOneStrayed(h, p);
    } else {
      OnlyOneKept(h, p);
    }
  }

  lemma RemoveFromNone<T>(h: HeapArray<T>, p: T)
    requires ArrayOk(h) && h.entries == []
    ensures Step(h, Remove(p)).None? <==> Faults(h, Remove(p))
    ensures Step(h, Remove(p)).Some? ==> Follows(h, Remove(p), Step(h, Remove(p)).value)
  {
    SearchWrittenEmpty(h.slots, p);
  }

  // One operation as written: it goes outside the array exactly when the heap is full, or
  // empty with the timer to remove in a stale slot; otherwise the array stays sound, and holds
  // what it should exactly when a removal neither missed nor strayed.
  lemma StepExact<T>(h: HeapArray<T>, op: Op<T>)
    requires ArrayOk(h)
    ensures Step(h, op).None? <==> Faults(h, op)
    ensures Step(h, op).Some? ==> Follows(h, op, Step(h, op).value)
  {
    match op
    case Add(e) =>
      if |h.entries| < |h.slots| {
        AddStep(h, e);
      }
    case Remove(p) =>
      if |h.entries| == 0 {
        RemoveFromNone(h, p);
      } else if |h.entries| == 1 {
        RemoveFromOne(h, p);
      } else {
        RemoveFromMany(h, p);
      }
    case SetKey(p, when) =>
      assert Timers(Rekeyed(h.entries, p, when)) == Timers(h.entries);
  }

  // ---------- Runs ----------

  ghost function After<T>(h: HeapArray<T>, op: Op<T>): (h': HeapArray<T>)
    requires ArrayOk(h) && !Faults(h, op)
    ensures ArrayOk(h') && |h'.slots| == |h.slots|
  {
    StepExact(h, op);
    Step(h, op).value
  }

  /** No operation of the run goes outside the array. */
  ghost predicate Runs<T>(h: HeapArray<T>, ops: seq<Op<T>>)
    requires ArrayOk(h)
    decreases ops
  {
    ops == [] || (!Faults(h, ops[0]) && Runs(After(h, ops[0]), ops[1..]))
  }

  ghost function Final<T>(h: HeapArray<T>, ops: seq<Op<T>>): (h': HeapArray<T>)
    requires ArrayOk(h) && Runs(h, ops)
    ensures ArrayOk(h') && |h'.slots| == |h.slots|
    decreases ops
  {
    if ops == [] then h else Final(After(h, ops[0]), ops[1..])
  }

  /** The run as the code carries it out. */
  ghost function UnderstoodAll<T>(h: HeapArray<T>, ops: seq<Op<T>>): seq<Op<T>>
    requires ArrayOk(h) && Runs(h, ops)
    decreases ops
  {
    if ops == [] then [] else Understood(h, ops[0]) + UnderstoodAll(After(h, ops[0]), ops[1..])
  }

  lemma ModelConcat<T>(m: multiset<T>, a: seq<Op<T>>, b: seq<Op<T>>)
    requires |a| <= 1
    ensures ModelAll(m, a + b) == ModelAll(ModelAll(m, a), b)
  {
    if a != [] {
      assert (a + b)[1..] == b && a[1..] == [];
    } else {
      assert a + b == b;
    }
  }

  // In every run of additions, removals and changes of firing times as written, whatever
  // becomes of the order, the heap holds exactly what the operations leave, with the missed
  // removals left out and the strayed ones taking the only timer.
  lemma {:induction false} WrittenRun<T>(h: HeapArray<T>, ops: seq<Op<T>>)
    requires ArrayOk(h) && Runs(h, ops)
    ensures Bag(Final(h, ops)) == ModelAll(Bag(h), UnderstoodAll(h, ops))
    decreases ops
  {
    if ops != [] {
      var h' := After(h, ops[0]);
      StepExact(h, ops[0]);
      WrittenRun(h', ops[1..]);
      ModelConcat(Bag(h), Understood(h, ops[0]), UnderstoodAll(h', ops[1..]));
    }
  }

  // A restart of a timer that is the last of four or more: the removal misses it, its firing
  // time changes in place, and it is added once more.
  lemma RestartedTwice<T>(h: HeapArray<T>, p: T, when: nat)
    requires ArrayOk(h) && Missed(h, Remove(p)) && |h.entries| < |h.slots|
    ensures Step(h, Remove(p)) == Some(h)
    ensures var h1 := After(After(h, SetKey(p, when)), Add(Entry(p, when)));
            Bag(h1) == Bag(h) + multiset{p} && Bag(h1)[p] == 2
  {
    StepExact(h, Remove(p));
    SearchAmongMany(h, p);
    var h0 := After(h, SetKey(p, when));
    StepExact(h, SetKey(p, when));
    StepExact(h0, Add(Entry(p, when)));
    OccupiedAre(h);
    var n := |h.entries|;
    assert h.slots[..n] == h.slots[..n - 1] + [p];
    assert multiset(h.slots[..n - 1])[p] == 0;
  }

  lemma OnlyAdded<T>(h: HeapArray<T>, e: Entry<T>)
    requires ArrayOk(h) && h.entries == []
    ensures After(h, Add(e)).entries == [e] && After(h, Add(e)).slots[0] == e.timer
  {
    assert Insert([], e) == [e];
  }

  lemma OnlyRemoved<T>(h: HeapArray<T>, e: Entry<T>)
    requires ArrayOk(h) && h.entries == [e]
    ensures var h' := After(h, Remove(e.timer)); h'.entries == [] && h'.slots[0] == e.timer
  {
    SearchBesideOne(h, e.timer);
    assert RemoveWritten([e], 0) == [];
  }

  lemma StaleFaults<T>(h: HeapArray<T>, p: T)
    requires ArrayOk(h) && h.entries == [] && h.slots[0] == p
    ensures Faults(h, Remove(p))
  {
    assert h.slots[..3][0] == p;
  }

  // A timer that was the only one stays in stale slot 0 when it is removed: removing it once
  // more fails.
  lemma RemovedTwice<T>(h: HeapArray<T>, e: Entry<T>)
    requires ArrayOk(h) && h.entries == []
    ensures Runs(h, [Add(e)]) && Runs(Final(h, [Add(e)]), [Remove(e.timer)])
    ensures Faults(Final(Final(h, [Add(e)]), [Remove(e.timer)]), Remove(e.timer))
  {
    var h1 := After(h, Add(e));
    OnlyAdded(h, e);
    assert [Add(e)][1..] == [];
    assert Final(h, [Add(e)]) == h1;
    var h2 := After(h1, Remove(e.timer));
    OnlyRemoved(h1, e);
    assert [Remove(e.timer)][1..] == [];
    assert Final(h1, [Remove(e.timer)]) == h2;
    StaleFaults(h2, e.timer);
  }
}
