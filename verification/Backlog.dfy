/**
 The timer task at work while the clock stands still: when slot 0 always holds a least
 timer, a bounded number of iterations clears the due timers.
 */
module Backlog {
  import opened Common
  import opened Protocol
  import opened ProtocolRuns
  import opened Lifetimes

  ghost predicate Iteration(w: World, e: Event) {
    e.Poll? || (e.Iterate? && IsTop(w, e.top))
  }

  /** A run of nothing but iterations of the timer task over an ordered heap. */
  ghost predicate Iterations(w: World, es: seq<Event>)
    requires Inv(w)
    decreases es
  {
    es == [] || (Enabled(w, es[0]) && Iteration(w, es[0]) && Iterations(Next(w, es[0]), es[1..]))
  }

  lemma {:induction false} IterationsRun(w: World, es: seq<Event>)
    requires Inv(w) && Iterations(w, es)
    ensures Runs(w, es)
    decreases es
  {
    if es != [] {
      IterationsRun(Next(w, es[0]), es[1..]);
    }
  }

  function DueIn(w: World, state: TimerState): set<nat> {
    set id | id in w.timers && id in w.heap && Due(w, id) && w.timers[id].state == state
  }

  function DueTimers(w: World): set<nat> {
    set id | id in w.timers && id in w.heap && Due(w, id)
  }

  /** Two iterations for a due Idle timer, which is re-armed first; one for an Active one. */
  function Work(w: World): nat {
    2 * |DueIn(w, Idle)| + |DueIn(w, Active)|
  }

  lemma WorkBound(w: World)
    requires Inv(w)
    ensures |DueTimers(w)| <= Work(w) <= 2 * |DueTimers(w)|
  {
    forall id | id in DueTimers(w) ensures id in DueIn(w, Idle) + DueIn(w, Active) {
      assert TimerOk(w, id);
    }
    assert DueTimers(w) == DueIn(w, Idle) + DueIn(w, Active);
    assert DueIn(w, Idle) !! DueIn(w, Active);
  }

  lemma ActiveFired(w: World, w': World, o: seq<Obs>, top: nat)
    requires |w.queues| == |w'.queues| == MAX_TASKS && top in w.timers && Iterates(w, w', o, top)
    requires Due(w, top) && w.timers[top].state == Active
    ensures Work(w') == Work(w) - 1
  {
    assert DueIn(w', Idle) == DueIn(w, Idle);
    assert DueIn(w', Active) == DueIn(w, Active) - {top};
    assert top in DueIn(w, Active);
  }

  lemma IdleRearmed(w: World, w': World, o: seq<Obs>, top: nat)
    requires |w.queues| == |w'.queues| == MAX_TASKS && top in w.timers && Iterates(w, w', o, top)
    requires Due(w, top) && w.timers[top].state == Idle
    ensures Work(w') < Work(w)
  {
    assert DueIn(w', Idle) == DueIn(w, Idle) - {top};
    assert top in DueIn(w, Idle);
    assert DueIn(w', Active) <= DueIn(w, Active) + {top};
    assert |DueIn(w', Active)| <= |DueIn(w, Active) + {top}| by {
      SubsetSize(DueIn(w', Active), DueIn(w, Active) + {top});
    }
  }

  lemma SubsetSize(a: set<nat>, b: set<nat>)
    requires a <= b
    ensures |a| <= |b|
  {
    assert b == a + (b - a);
  }

  lemma IterationProgress(w: World, e: Event)
    requires Inv(w) && Enabled(w, e) && Iteration(w, e)
    ensures if DueTimers(w) == {} then Next(w, e) == w else Work(Next(w, e)) < Work(w)
  {
    if e.Iterate? {
      IterateEffect(w, e);
      if Due(w, e.top) {
        if w.timers[e.top].state == Active {
          ActiveFired(w, Next(w, e), Observe(w, e), e.top);
        } else {
          IdleRearmed(w, Next(w, e), Observe(w, e), e.top);
        }
        assert e.top in DueTimers(w);
      }
    } else {
      assert DueTimers(w) == {};
    }
  }

  // With the clock standing still, any 2 x (number of due timers) iterations leave no due
  // timer in the heap, cancelled timers and zero timeouts included.
  lemma {:induction false} BacklogClears(w: World, es: seq<Event>)
    requires Inv(w) && Iterations(w, es) && Runs(w, es)
    requires |es| >= Work(w) || |es| >= 2 * |DueTimers(w)|
    ensures DueTimers(Final(w, es)) == {}
    decreases es
  {
    WorkBound(w);
    if es != [] {
      IterationProgress(w, es[0]);
      BacklogClears(Next(w, es[0]), es[1..]);
    }
  }

  // ---------- There is always a next iteration ----------

  lemma {:induction false} LeastOf(ids: set<nat>, when: map<nat, nat>) returns (top: nat)
    requires ids != {} && ids <= when.Keys
    ensures top in ids && forall id | id in ids :: when[top] <= when[id]
    decreases |ids|
  {
    top :| top in ids;
    if ids != {top} {
      var t := LeastOf(ids - {top}, when);
      if when[t] < when[top] {
        top := t;
      }
    }
  }

  lemma NextIteration(w: World) returns (e: Event)
    requires Inv(w)
    ensures Enabled(w, e) && Iteration(w, e)
  {
    if w.heap == multiset{} {
      e := Poll;
    } else {
      var x :| x in w.heap;
      assert TimerOk(w, x);
      var ids := set id | id in w.timers && id in w.heap;
      assert x in ids;
      var keys := map id | id in w.timers :: w.timers[id].whenToFire;
      var top := LeastOf(ids, keys);
      forall id | id in w.timers && id in w.heap ensures w.timers[top].whenToFire <= w.timers[id].whenToFire {
        assert id in ids && keys[top] <= keys[id];
      }
      e := Iterate(top);
    }
  }

  lemma {:induction false} IterateFor(w: World, n: nat) returns (es: seq<Event>)
    requires Inv(w)
    ensures |es| == n && Iterations(w, es)
    decreases n
  {
    es := [];
    if n > 0 {
      var e := NextIteration(w);
      var rest := IterateFor(Next(w, e), n - 1);
      es := [e] + rest;
    }
  }

  // So from every state the timer task can clear what is due, in that many iterations.
  lemma BacklogCanClear(w: World)
    requires Inv(w)
    ensures exists es :: |es| == 2 * |DueTimers(w)| && Iterations(w, es) && Runs(w, es) && DueTimers(Final(w, es)) == {}
  {
    var es := IterateFor(w, 2 * |DueTimers(w)|);
    IterationsRun(w, es);
    BacklogClears(w, es);
  }

  // All that happens to the queues meanwhile is that what fires is put at their ends.
  lemma {:induction false} BacklogQueued(w: World, es: seq<Event>, q: nat)
    requires Inv(w) && Iterations(w, es) && Runs(w, es) && q < MAX_TASKS
    ensures Final(w, es).queues[q] == w.queues[q] + FiredTo(Trace(w, es), q)
    decreases es
  {
    if es != [] {
      var a, b := Observe(w, es[0]), Trace(Next(w, es[0]), es[1..]);
      if es[0].Iterate? {
        IterateMessages(w, es[0], q);
      }
      BacklogQueued(Next(w, es[0]), es[1..], q);
      FiredToConcat(a, b, q);
      Regroup(w.queues[q], FiredTo(a, q), FiredTo(b, q));
    }
  }
}
