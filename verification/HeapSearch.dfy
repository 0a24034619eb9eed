/**
 The recursive search for a timer in the heap array, as a function from the whole array
 (stale slots included), the number of timers, the wanted timer and the slot to look at
 next, to the slot where it is found.
 */
module HeapSearch {
  import opened Common

  // numberOfTimers - 1 in 32-bit unsigned arithmetic.
  function LastSlot(n: nat): nat {
    if n == 0 then TWO_32 - 1 else n - 1
  }

  /** One level of the search as written: slot i, then its children below the last slot. */
  function Examine<T(==)>(a: seq<T>, n: nat, p: T, i: nat): (k: Option<nat>)
    requires n <= |a| && 3 <= |a| < TWO_32 && (i == 0 || 2 * i <= n + 1)
    ensures k.Some? ==> k.value < |a| && a[k.value] == p
  {
    var left, right := 2 * i + 1, 2 * i + 2;
    if a[i] == p then Some(i)
    else if left < LastSlot(n) && a[left] == p then Some(left)
    else if right < LastSlot(n) && a[right] == p then Some(right)
    else None
  }

  function SearchWritten<T(==)>(a: seq<T>, n: nat, p: T, i: nat): (k: Option<nat>)
    requires n <= |a| && 3 <= |a| < TWO_32 && (i == 0 || 2 * i <= n + 1)
    ensures k.Some? ==> k.value < |a| && a[k.value] == p
    decreases n + 1 - i
  {
    var k := Examine(a, n, p, i);
    if k.Some? || 2 * i + 1 > n then k else SearchWritten(a, n, p, i + 1)
  }

  /** The last slot the search as written ever looks at. */
  function Reach(n: nat): nat {
    if n == 0 then 2
    else if n <= 2 then 1
    else if n == 3 then 2
    else n - 2
  }

  lemma {:induction false} SearchWrittenFrom<T>(a: seq<T>, n: nat, p: T, i: nat)
    requires n <= |a| && 3 <= |a| < TWO_32 && (i == 0 || 2 * i <= n + 1)
    requires n == 0 ==> i == 0
    ensures var k := SearchWritten(a, n, p, i);
            && (k.None? ==> forall j | i <= j <= Reach(n) && (j == i || 2 * j <= n + 1 || j > 2 * i) :: a[j] != p)
            && (k.Some? ==> k.value <= Reach(n))
            && (k.Some? ==> forall j: nat | j < k.value && (j == i || j > 2 * i) :: a[j] != p)
    decreases n + 1 - i
  {
    if 2 * i + 1 <= n {
      SearchWrittenFrom(a, n, p, i + 1);
    }
  }

  // The search as written, for every count: it examines exactly the slots 0 .. Reach(n), and
  // finds the first of them that matches.
  lemma SearchWrittenExact<T>(a: seq<T>, n: nat, p: T)
    requires n <= |a| && 3 <= |a| < TWO_32
    ensures var k := SearchWritten(a, n, p, 0);
            && (k.None? <==> forall j: nat | j <= Reach(n) :: a[j] != p)
            && (k.Some? ==> k.value <= Reach(n) && a[k.value] == p)
            && (k.Some? ==> forall j: nat | j < k.value :: a[j] != p)
  {
    SearchWrittenFrom(a, n, p, 0);
  }

  // With two or more distinct timers the search as written finds the timer in slot k
  // exactly when k is not the last slot or there are at most three; it finds no other.
  lemma SearchWrittenMissesLast<T>(a: seq<T>, n: nat, p: T)
    requires 2 <= n <= |a| && 3 <= |a| < TWO_32
    requires forall i, j | 0 <= i < j < n :: a[i] != a[j]
    ensures forall k: nat | k < n && a[k] == p ::
              SearchWritten(a, n, p, 0) == if k < n - 1 || n <= 3 then Some(k) else None
    ensures p !in a[..n] ==> SearchWritten(a, n, p, 0) == None
  {
    SearchWrittenExact(a, n, p);
    var k := SearchWritten(a, n, p, 0);
    if k.Some? {
      assert a[..n][k.value] == p;
    }
  }

  // The last of four timers is not found.
  lemma SearchWrittenCounterexample()
    ensures SearchWritten([10, 11, 12, 13], 4, 13, 0) == None
    ensures SearchMeant([10, 11, 12, 13], 4, 13, 0) == Some(3)
  {
    var a := [10, 11, 12, 13];
    SearchWrittenMissesLast(a, 4, a[3]);
    SearchMeantExact(a, 4, 13, 0);
  }

  // With no timer the search looks at three stale slots, and a match in any of them makes the
  // code go on to read the slot before the first, at 2^32 - 1.
  lemma SearchWrittenEmpty<T>(a: seq<T>, p: T)
    requires 3 <= |a| < TWO_32
    ensures SearchWritten(a, 0, p, 0).Some? <==> p in a[..3]
    ensures a[0] == p ==> SearchWritten(a, 0, p, 0) == Some(0)
  {
    SearchWrittenExact(a, 0, p);
    if SearchWritten(a, 0, p, 0).Some? {
      assert a[..3][SearchWritten(a, 0, p, 0).value] == p;
    }
  }

  // With one timer an absent target can match the stale slot 1.
  lemma SearchWrittenStaleMatch<T>(a: seq<T>, p: T)
    requires 3 <= |a| < TWO_32 && a[0] != p
    ensures SearchWritten(a, 1, p, 0) == if a[1] == p then Some(1) else None
  {
    SearchWrittenExact(a, 1, p);
  }

  /** As meant: only occupied slots are looked at, and all of them. */
  function SearchMeant<T(==)>(a: seq<T>, n: nat, p: T, i: nat): (k: Option<nat>)
    requires n <= |a|
    ensures k.Some? ==> i <= k.value < n && a[k.value] == p
    decreases n - i
  {
    var left, right := 2 * i + 1, 2 * i + 2;
    if i >= n then None
    else if a[i] == p then Some(i)
    else if left < n && a[left] == p then Some(left)
    else if right < n && a[right] == p then Some(right)
    else SearchMeant(a, n, p, i + 1)
  }

  lemma {:induction false} SearchMeantExact<T>(a: seq<T>, n: nat, p: T, i: nat)
    requires n <= |a|
    ensures var k := SearchMeant(a, n, p, i);
            && (k.None? <==> forall j: nat | i <= j < n :: a[j] != p)
            && (k.Some? ==> forall j: nat | j < k.value && (j == i || j > 2 * i) :: a[j] != p)
    decreases n - i
  {
    if i < n {
      SearchMeantExact(a, n, p, i + 1);
    }
  }
}
