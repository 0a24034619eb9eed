/**
 Time arithmetic over readings of the millisecond clock, in 64-bit unsigned arithmetic,
 and the choice of a timer's first firing time.
 */
module TimerUtils {
  import opened Common

  function TimeoutToAbsolute(now: nat, timeout: nat): nat {
    (now + timeout) % TWO_64
  }

  // The difference is unsigned, so the test for a past time never fails: it wraps around.
  function AbsoluteToRelative(now: nat, absolute: nat): nat {
    (absolute - now) % TWO_64
  }

  function FuzzyTimeout(x1: nat, x2: nat, draw: nat): nat
    requires x1 < x2
  {
    (x1 + 1 + draw % (x2 - x1)) % TWO_64
  }

  /** A bound of a fuzzy one-shot, made relative at clock reading `now` when it is absolute. */
  function Bound(now: nat, x: nat, isAbsolute: bool): nat {
    if isAbsolute then AbsoluteToRelative(now, x) else x
  }

  // Converting an absolute time is exact just when it is not yet past.
  lemma AbsoluteToRelativeExact(now: nat, absolute: nat)
    requires now < TWO_64 && absolute < TWO_64
    ensures now + AbsoluteToRelative(now, absolute) == absolute <==> now <= absolute
    ensures TimeoutToAbsolute(now, AbsoluteToRelative(now, absolute)) == absolute
  {
    if now <= absolute {
      assert AbsoluteToRelative(now, absolute) == absolute - now;
    } else {
      assert (absolute - now) % TWO_64 == absolute - now + TWO_64;
    }
  }

  // A timeout is counted from now exactly when the sum fits in 64 bits; otherwise the time it
  // yields has already come.
  lemma TimeoutExact(now: nat, timeout: nat)
    requires now < TWO_64 && timeout < TWO_64
    ensures TimeoutToAbsolute(now, timeout) == now + timeout <==> now + timeout < TWO_64
    ensures now + timeout >= TWO_64 ==> TimeoutToAbsolute(now, timeout) == now + timeout - TWO_64 < now
  {
    if now + timeout >= TWO_64 {
      assert (now + timeout) % TWO_64 == now + timeout - TWO_64;
    }
  }

  /** The fuzzy one-shot fires in (now + x1, now + x2]. */
  predicate InWindow(now: nat, x1: nat, x2: nat, draw: nat)
    requires x1 < x2
  {
    now + x1 < TimeoutToAbsolute(now, FuzzyTimeout(x1, x2, draw)) <= now + x2
  }

  // With relative bounds x1 < x2 it does exactly when the sum with the drawn timeout fits in
  // 64 bits.
  lemma FuzzyWindow(now: nat, x1: nat, x2: nat, draw: nat)
    requires x1 < x2 < TWO_64 && now < TWO_64
    ensures InWindow(now, x1, x2, draw) <==> now + x1 + 1 + draw % (x2 - x1) < TWO_64
  {
    var d := draw % (x2 - x1);
    assert 0 <= d < x2 - x1;
    assert FuzzyTimeout(x1, x2, draw) == x1 + 1 + d;
    TimeoutExact(now, x1 + 1 + d);
  }

  lemma RemainderBelow(draw: nat, width: nat)
    requires width > 0
    ensures 0 <= draw % width < width
    ensures draw < width ==> draw % width == draw
  {
  }

  lemma FuzzyWindowFits(now: nat, x1: nat, x2: nat, draw: nat)
    requires x1 < x2 && now + x2 < TWO_64
    ensures InWindow(now, x1, x2, draw)
  {
    RemainderBelow(draw, x2 - x1);
    FuzzyWindow(now, x1, x2, draw);
  }

  lemma FuzzyWindowWraps(now: nat, x1: nat, x2: nat)
    requires x1 < x2 < TWO_64 && now < TWO_64 <= now + x2
    ensures !InWindow(now, x1, x2, x2 - x1 - 1)
  {
    RemainderBelow(x2 - x1 - 1, x2 - x1);
    FuzzyWindow(now, x1, x2, x2 - x1 - 1);
  }

  // So it does whatever the draw exactly when now + x2 fits.
  lemma FuzzyWindowAlways(now: nat, x1: nat, x2: nat)
    requires x1 < x2 < TWO_64 && now < TWO_64
    ensures (forall draw: nat :: InWindow(now, x1, x2, draw)) <==> now + x2 < TWO_64
  {
    if now + x2 < TWO_64 {
      forall draw: nat ensures InWindow(now, x1, x2, draw) {
        FuzzyWindowFits(now, x1, x2, draw);
      }
    } else {
      FuzzyWindowWraps(now, x1, x2);
    }
  }

  // With absolute bounds a1 and a2, read against the clock at c1 and c2 and turned back
  // into a firing time at c3, the window is (a1, a2 + (c3 - c2)].
  lemma FuzzyAbsoluteWindow(a1: nat, a2: nat, c1: nat, c2: nat, c3: nat, draw: nat)
    requires c1 <= c2 <= c3 && c1 <= a1 && c2 <= a2 && a1 < TWO_64
    requires AbsoluteToRelative(c1, a1) < AbsoluteToRelative(c2, a2)
    requires a2 + (c3 - c2) < TWO_64
    ensures var x1, x2 := AbsoluteToRelative(c1, a1), AbsoluteToRelative(c2, a2);
            a1 < TimeoutToAbsolute(c3, FuzzyTimeout(x1, x2, draw)) <= a2 + (c3 - c2)
  {
    RemainderBelow(a1 - c1, TWO_64);
    RemainderBelow(a2 - c2, TWO_64);
    FuzzyWindowFits(c3, a1 - c1, a2 - c2, draw);
  }
}
