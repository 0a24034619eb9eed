/**
 The free list of a memory pool on values: a list of slots threaded through an array of
 links, ending at the sentinel, the number of slots.
 */
module FreeList {
  import opened Common

  datatype PoolState = PoolState(first: nat, links: seq<nat>, used: nat)

  function Initial(max: nat): PoolState {
    PoolState(0, seq(max, i requires 0 <= i => i + 1), 0)
  }

  /** The slot handed out and the pool after it, as getFromPool leaves it. */
  function Get(p: PoolState): (r: (PoolState, Option<nat>))
    requires p.used == |p.links| || p.first < |p.links|
  {
    if p.used == |p.links| then (p, None)
    else (PoolState(p.links[p.first], p.links, p.used + 1), Some(p.first))
  }

  function Put(p: PoolState, i: nat): PoolState
    requires i < |p.links|
  {
    if p.used == 0 then p else PoolState(i, p.links[i := p.first], p.used - 1)
  }

  /** The first n slots met when following the links from `at`. */
  function Walk(links: seq<nat>, at: nat, n: nat): seq<nat>
    decreases n
  {
    if n == 0 || at >= |links| then [] else [at] + Walk(links, links[at], n - 1)
  }

  function Free(p: PoolState): seq<nat> {
    if p.used > |p.links| then [] else Walk(p.links, p.first, |p.links| - p.used)
  }

  function Slots(n: nat): (s: set<nat>)
    ensures |s| == n && forall i :: i in s <==> 0 <= i < n
  {
    if n == 0 then {} else Slots(n - 1) + {n - 1}
  }

  function Live(p: PoolState): set<nat> {
    set i | i in Slots(|p.links|) && i !in Free(p)
  }

  /** The set is that of the live slots, said slot by slot. */
  ghost predicate AreLive(p: PoolState, s: set<nat>) {
    forall i: nat :: i in s <==> i < |p.links| && i !in Free(p)
  }

  lemma LiveAreLive(p: PoolState)
    ensures AreLive(p, Live(p))
  {
  }

  // The slot that follows position j of the list f, the sentinel at the end.
  function Follower(f: seq<nat>, j: nat, sentinel: nat): nat {
    if j < |f| then f[j] else sentinel
  }

  ghost predicate Chained(links: seq<nat>, f: seq<nat>) {
    forall j: nat | j < |f| :: f[j] < |links| && links[f[j]] == Follower(f, j + 1, |links|)
  }

  ghost predicate Threads(p: PoolState, f: seq<nat>) {
    && |f| + p.used == |p.links|
    && p.first == Follower(f, 0, |p.links|)
    && Chained(p.links, f)
    && (forall i, j | 0 <= i < j < |f| :: f[i] != f[j])
  }

  /** The walk along the free list meets max - used distinct slots and ends at the
      sentinel. */
  ghost predicate PoolOk(p: PoolState) {
    Threads(p, Free(p))
  }

  lemma {:induction false} WalkFollows(links: seq<nat>, f: seq<nat>)
    requires Chained(links, f)
    ensures Walk(links, Follower(f, 0, |links|), |f|) == f
    decreases |f|
  {
    if f != [] {
      var rest := f[1..];
      forall j: nat | j < |rest| ensures rest[j] < |links| && links[rest[j]] == Follower(rest, j + 1, |links|) {
        assert rest[j] == f[j + 1];
      }
      WalkFollows(links, rest);
      assert links[f[0]] == Follower(f, 1, |links|) == Follower(rest, 0, |links|);
    }
  }

  lemma ThreadsIsFree(p: PoolState, f: seq<nat>)
    requires Threads(p, f)
    ensures Free(p) == f && PoolOk(p)
  {
    WalkFollows(p.links, f);
  }

  lemma InitialPool(max: nat)
    ensures PoolOk(Initial(max)) && Live(Initial(max)) == {}
    ensures Free(Initial(max)) == seq(max, i requires 0 <= i => i)
  {
    var f := seq(max, i requires 0 <= i => i);
    ThreadsIsFree(Initial(max), f);
    forall i | 0 <= i < max ensures i in f {
      assert f[i] == i;
    }
  }

  lemma {:induction false} DistinctCount(f: seq<nat>, s: set<nat>)
    requires forall i, j | 0 <= i < j < |f| :: f[i] != f[j]
    requires forall x :: x in s <==> x in f
    ensures |s| == |f|
    decreases |f|
  {
    if f != [] {
      var t := s - {f[0]};
      assert f == [f[0]] + f[1..];
      DistinctCount(f[1..], t);
      assert s == t + {f[0]};
    } else {
      assert s == {};
    }
  }

  // As many slots are live as the counter says, so the pool is used up exactly when every
  // slot is live.
  lemma LiveCount(p: PoolState)
    requires PoolOk(p)
    ensures |Live(p)| == p.used
  {
    var f, all := Free(p), Slots(|p.links|);
    var free := set i | i in all && i in f;
    forall x | x in f ensures x in free {
      var j :| 0 <= j < |f| && f[j] == x;
    }
    DistinctCount(f, free);
    assert all == Live(p) + free && Live(p) !! free;
  }

  lemma FirstTaken(p: PoolState)
    requires PoolOk(p) && p.used < |p.links|
    ensures p.first < |p.links| && PoolOk(Get(p).0)
    ensures Free(Get(p).0) == Free(p)[1..] && Free(p)[0] == p.first
  {
    var f, q := Free(p), Get(p).0;
    forall j: nat | j < |f[1..]|
      ensures f[1..][j] < |q.links| && q.links[f[1..][j]] == Follower(f[1..], j + 1, |q.links|)
    {
      assert f[1..][j] == f[j + 1];
    }
    ThreadsIsFree(q, f[1..]);
  }

  // getFromPool: no slot exactly when all are live; otherwise a slot that was not.
  lemma GetCorrect(p: PoolState)
    requires PoolOk(p)
    ensures p.used == |p.links| || p.first < |p.links|
    ensures var (q, r) := Get(p);
            && PoolOk(q) && q.links == p.links
            && (r.None? <==> |Live(p)| == |p.links|)
            && (r.None? ==> q == p)
            && (r.Some? ==>
                  && r.value < |p.links| && r.value !in Live(p)
                  && Free(p) == [r.value] + Free(q)
                  && Live(q) == Live(p) + {r.value})
  {
    LiveCount(p);
    if p.used < |p.links| {
      FirstTaken(p);
      assert Free(p) == [Free(p)[0]] + Free(p)[1..];
      assert Free(p)[0] in Free(p);
    }
  }

  lemma PutLive(p: PoolState, i: nat)
    requires PoolOk(p) && i in Live(p)
    ensures p.used > 0 && PoolOk(Put(p, i))
    ensures Free(Put(p, i)) == [i] + Free(p)
    ensures Live(Put(p, i)) == Live(p) - {i}
  {
    LiveCount(p);
    var f, q := [i] + Free(p), Put(p, i);
    forall j: nat | j < |f| ensures f[j] < |q.links| && q.links[f[j]] == Follower(f, j + 1, |q.links|) {
      if j > 0 {
        assert f[j] == Free(p)[j - 1] && f[j] in Free(p);
      }
    }
    forall a, b | 0 <= a < b < |f| ensures f[a] != f[b] {
      assert f[b] in Free(p);
    }
    ThreadsIsFree(q, f);
  }

  // The list f threaded from slot i once i is pushed onto the list g retraces g.
  lemma {:induction false} FreedTwiceWalk(links: seq<nat>, i: nat, g: seq<nat>, f: seq<nat>, j: nat)
    requires Chained(links, g) && i < |links| && Chained(links[i := Follower(g, 0, |links|)], f)
    requires |f| == |g| + 1 && f[0] == i
    requires j < |g| && forall k | 0 <= k < j :: g[k] != i
    ensures f[j + 1] == g[j]
    decreases j
  {
    var links' := links[i := Follower(g, 0, |links|)];
    if j > 0 {
      FreedTwiceWalk(links, i, g, f, j - 1);
      assert links'[f[j]] == Follower(f, j + 1, |links|);
      assert links[g[j - 1]] == Follower(g, j, |links|);
    } else {
      assert links'[f[0]] == Follower(f, 1, |links|);
    }
  }

  lemma {:induction false} FirstAt(f: seq<nat>, i: nat) returns (j: nat)
    requires i in f
    ensures j < |f| && f[j] == i && forall k | 0 <= k < j :: f[k] != i
  {
    if f[0] == i {
      j := 0;
    } else {
      j := FirstAt(f[1..], i);
      j := j + 1;
    }
  }

  lemma FreedTwice(p: PoolState, i: nat)
    requires PoolOk(p) && p.used > 0 && i in Free(p)
    ensures i < |p.links| && !PoolOk(Put(p, i))
  {
    var j := FirstAt(Free(p), i);
    if PoolOk(Put(p, i)) {
      FreedTwiceWalk(p.links, i, Free(p), Free(Put(p, i)), j);
    }
  }

  // removeFromPool keeps the free list sound exactly when the slot was live, or none was, for
  // then nothing is done: a slot freed while free closes the list into a ring.
  lemma PutExact(p: PoolState, i: nat)
    requires PoolOk(p) && i < |p.links|
    ensures PoolOk(Put(p, i)) <==> i in Live(p) || Live(p) == {}
    ensures Live(p) == {} ==> Put(p, i) == p
  {
    LiveCount(p);
    if i in Live(p) {
      PutLive(p, i);
    } else if p.used > 0 {
      FreedTwice(p, i);
    }
  }

  // A freed slot is the next one handed out.
  lemma LastInFirstOut(p: PoolState, i: nat)
    requires PoolOk(p) && i in Live(p)
    ensures Put(p, i).first < |p.links|
    ensures Get(Put(p, i)).1 == Some(i)
    ensures Free(Get(Put(p, i)).0) == Free(p) && Live(Get(Put(p, i)).0) == Live(p)
  {
    PutLive(p, i);
    var q := Put(p, i);
    GetCorrect(q);
    SameTail([i], Free(p), Free(Get(q).0));
  }

  lemma SameTail(a: seq<nat>, b: seq<nat>, c: seq<nat>)
    requires a + b == a + c
    ensures b == c
  {
    assert b == (a + b)[|a|..];
    assert c == (a + c)[|a|..];
  }

  // Giving back the slot just taken undoes the taking, down to the links.
  lemma GetThenPut(p: PoolState)
    requires p.used < |p.links| && p.first < |p.links|
    ensures Get(p).1 == Some(p.first)
    ensures Put(Get(p).0, p.first) == p
  {
    assert p.links[p.first := p.links[p.first]] == p.links;
  }

  // ---------- Any use of the pool ----------

  datatype Call = Take | Give(slot: nat)

  /** What is given back was handed out. */
  ghost predicate CallOk(live: set<nat>, c: Call) {
    c.Give? ==> c.slot in live
  }

  ghost function Serve(p: PoolState, c: Call): (r: (PoolState, Option<nat>))
    requires PoolOk(p) && CallOk(Live(p), c)
    ensures PoolOk(r.0) && |r.0.links| == |p.links|
  {
    match c
    case Take =>
      GetCorrect(p);
      Get(p)
    case Give(i) =>
      PutLive(p, i);
      (Put(p, i), None)
  }

  /** A pool of n slots by the set of those that are live: it hands out any slot that is not
      live, and none only when all are. */
  ghost predicate Serves(n: nat, live: set<nat>, c: Call, out: Option<nat>) {
    match c
    case Take => if out.None? then |live| == n else out.value < n && out.value !in live
    case Give(_) => out == None
  }

  function LiveAfter(live: set<nat>, c: Call, out: Option<nat>): set<nat> {
    match c
    case Take => if out.None? then live else live + {out.value}
    case Give(i) => live - {i}
  }

  /** And by the stack of those that are free. */
  function Pop(free: seq<nat>, c: Call): (r: (seq<nat>, Option<nat>)) {
    match c
    case Take => if free == [] then (free, None) else (free[1..], Some(free[0]))
    case Give(i) => ([i] + free, None)
  }

  lemma ServeCorrect(p: PoolState, c: Call)
    requires PoolOk(p) && CallOk(Live(p), c)
    ensures var (q, out) := Serve(p, c);
            && (Free(q), out) == Pop(Free(p), c)
            && Serves(|p.links|, Live(p), c, out)
            && Live(q) == LiveAfter(Live(p), c, out)
  {
    match c
    case Take =>
      GetCorrect(p);
      LiveCount(p);
    case Give(i) => PutLive(p, i);
  }

  /** Takes and gives in any order, every give of a slot that is live by then. */
  ghost predicate CallsOk(p: PoolState, cs: seq<Call>)
    requires PoolOk(p)
    decreases cs
  {
    cs == [] || (CallOk(Live(p), cs[0]) && CallsOk(Serve(p, cs[0]).0, cs[1..]))
  }

  ghost function ServeAll(p: PoolState, cs: seq<Call>): (r: (PoolState, seq<Option<nat>>))
    requires PoolOk(p) && CallsOk(p, cs)
    ensures PoolOk(r.0) && |r.0.links| == |p.links| && |r.1| == |cs|
    decreases cs
  {
    if cs == [] then (p, [])
    else
      var (q, out) := Serve(p, cs[0]);
      var (r, outs) := ServeAll(q, cs[1..]);
      (r, [out] + outs)
  }

  function PopAll(free: seq<nat>, cs: seq<Call>): (r: (seq<nat>, seq<Option<nat>>))
    decreases cs
  {
    if cs == [] then (free, [])
    else
      var (f, out) := Pop(free, cs[0]);
      var (g, outs) := PopAll(f, cs[1..]);
      (g, [out] + outs)
  }

  ghost predicate ServesAll(n: nat, live: set<nat>, cs: seq<Call>, outs: seq<Option<nat>>, live': set<nat>)
    requires |outs| == |cs|
    decreases cs
  {
    if cs == [] then live' == live
    else
      && Serves(n, live, cs[0], outs[0])
      && ServesAll(n, LiveAfter(live, cs[0], outs[0]), cs[1..], outs[1..], live')
  }

  // However takes and gives are interleaved, the pool is a stack of its free slots and a set
  // of its live ones: it hands out the slot given back last, never a live one, and none only
  // when all are live.
  lemma {:induction false} PoolRefines(p: PoolState, cs: seq<Call>)
    requires PoolOk(p) && CallsOk(p, cs)
    ensures var (q, outs) := ServeAll(p, cs);
            && (Free(q), outs) == PopAll(Free(p), cs)
            && ServesAll(|p.links|, Live(p), cs, outs, Live(q))
    decreases cs
  {
    if cs != [] {
      ServeCorrect(p, cs[0]);
      PoolRefines(Serve(p, cs[0]).0, cs[1..]);
    }
  }

  /** Properly nested use of the pool: take a slot, use the pool inside, give the slot back,
      and go on. */
  datatype Session = Idle | Use(inner: Session, next: Session)

  function Depth(s: Session): nat {
    match s
    case Idle => 0
    case Use(inner, next) =>
      if 1 + Depth(inner) > Depth(next) then 1 + Depth(inner) else Depth(next)
  }

  ghost function Perform(p: PoolState, s: Session): (q: PoolState)
    requires PoolOk(p) && p.used + Depth(s) <= |p.links|
    ensures q == p
    decreases s
  {
    match s
    case Idle => p
    case Use(inner, next) =>
      GetCorrect(p);
      GetThenPut(p);
      var q := Perform(Get(p).0, inner);
      Perform(Put(q, p.first), next)
  }
}
