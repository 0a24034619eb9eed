/**
 What the schedule step promises of the firing time, said through the times asked for: a
 one-shot at a timeout, a fuzzy one between two bounds, and what a timer that was never
 scheduled is spared.
 */
module Scheduling {
  import opened Common
  import opened TimerUtils
  import opened Protocol
  import opened ProtocolRuns
  import opened Lifetimes
  import opened WrittenEngine
  import WrittenHeap

  /** The point in time a bound asks for, when it is read at clock reading now. */
  function Asked(now: nat, x: nat, isAbsolute: bool): nat {
    if isAbsolute then x else now + x
  }

  /** A schedule step with a fuzzy firing time, from and to being the times asked for; those
      given as absolute times are not past. */
  ghost predicate Fuzzy(w: World, e: Event, from: nat, to: nat) {
    && Inv(w) && Enabled(w, e) && e.Schedule? && e.args.fuzzy
    && from == Asked(w.clock, e.args.first, e.args.firstIsAbsolute)
    && to == Asked(w.clock, e.args.timeout, e.args.timeoutIsAbsolute)
    && w.clock <= from && w.clock <= to && from < TWO_64 && to < TWO_64
  }

  lemma BoundIs(now: nat, x: nat, isAbsolute: bool)
    requires x < TWO_64 && now <= Asked(now, x, isAbsolute)
    ensures now + Bound(now, x, isAbsolute) == Asked(now, x, isAbsolute)
  {
    if isAbsolute {
      RemainderBelow(x - now, TWO_64);
    }
  }

  // Between two bounds in the right order, relative or absolute, the timer fires after the
  // first and no later than the second, at a time given by the draw alone.
  lemma FuzzyFiresBetween(w: World, e: Event, from: nat, to: nat)
    requires Fuzzy(w, e, from, to) && from < to
    ensures from < Next(w, e).timers[e.id].whenToFire <= to
    ensures Next(w, e).timers[e.id].whenToFire == from + 1 + e.args.draw % (to - from)
  {
    BoundIs(w.clock, e.args.first, e.args.firstIsAbsolute);
    BoundIs(w.clock, e.args.timeout, e.args.timeoutIsAbsolute);
    FuzzyDue(w.clock, from - w.clock, to - w.clock, e.args.draw);
    RemainderBelow(e.args.draw, to - from);
  }

  lemma FuzzyDue(now: nat, x1: nat, x2: nat, draw: nat)
    requires x1 < x2 && now + x2 < TWO_64
    ensures TimeoutToAbsolute(now, FuzzyTimeout(x1, x2, draw)) == now + x1 + 1 + draw % (x2 - x1)
  {
    RemainderBelow(draw, x2 - x1);
    var t := x1 + 1 + draw % (x2 - x1);
    RemainderBelow(t, TWO_64);
    RemainderBelow(now + t, TWO_64);
  }

  // Every time between the bounds is the firing time for some draw.
  lemma FuzzyReachesAll(w: World, e: Event, from: nat, to: nat, t: nat)
    requires Fuzzy(w, e, from, to) && from < t <= to && e.args.draw == t - from - 1
    ensures Next(w, e).timers[e.id].whenToFire == t
  {
    FuzzyFiresBetween(w, e, from, to);
    RemainderBelow(e.args.draw, to - from);
  }

  // Bounds the wrong way round leave the firing time as it was.
  lemma FuzzyReversed(w: World, e: Event, from: nat, to: nat)
    requires Fuzzy(w, e, from, to) && to < from
    ensures Next(w, e).timers[e.id].whenToFire == w.timers[e.id].whenToFire
  {
    BoundIs(w.clock, e.args.first, e.args.firstIsAbsolute);
    BoundIs(w.clock, e.args.timeout, e.args.timeoutIsAbsolute);
  }

  // A first bound that is past leaves it as it was, too: made relative, it wraps around.
  lemma FuzzyPast(w: World, e: Event)
    requires Inv(w) && Enabled(w, e) && e.Schedule? && e.args.fuzzy && e.args.firstIsAbsolute
    requires e.args.first < w.clock < TWO_64
    requires w.clock <= Asked(w.clock, e.args.timeout, e.args.timeoutIsAbsolute) < TWO_64
    ensures Next(w, e).timers[e.id].whenToFire == w.timers[e.id].whenToFire
  {
    BoundIs(w.clock, e.args.timeout, e.args.timeoutIsAbsolute);
    assert (e.args.first - w.clock) % TWO_64 == e.args.first - w.clock + TWO_64;
  }

  // With relative bounds, for every sum: in the window exactly when it does not wrap around.
  lemma FuzzyRelativeExact(w: World, e: Event)
    requires Inv(w) && Enabled(w, e) && e.Schedule? && e.args.fuzzy && w.clock < TWO_64
    requires !e.args.firstIsAbsolute && !e.args.timeoutIsAbsolute && e.args.first < e.args.timeout
    ensures var a, when := e.args, Next(w, e).timers[e.id].whenToFire;
            w.clock + a.first < when <= w.clock + a.timeout
            <==> w.clock + a.first + 1 + a.draw % (a.timeout - a.first) < TWO_64
  {
    FuzzyWindow(w.clock, e.args.first, e.args.timeout, e.args.draw);
  }

  // A timer scheduled at a timeout, one-shot or periodic, is due just then, exactly when the
  // sum fits; and it remembers the timeout in `first`.
  lemma TimeoutFires(w: World, e: Event)
    requires Inv(w) && Enabled(w, e) && e.Schedule? && !e.args.fuzzy && !e.args.firstIsAbsolute
    requires w.clock < TWO_64
    ensures var r := Next(w, e).timers[e.id];
            && (r.whenToFire == w.clock + e.args.first <==> w.clock + e.args.first < TWO_64)
            && r.first == e.args.first
  {
    TimeoutExact(w.clock, e.args.first);
  }

  // An absolute first time, and a fuzzy one, do not change what the timer remembers; so the
  // next absolute schedule fires at what the last relative one asked for as a timeout.
  lemma FirstRemembered(w: World, e: Event)
    requires Inv(w) && Enabled(w, e) && e.Schedule? && (e.args.fuzzy || e.args.firstIsAbsolute)
    ensures Next(w, e).timers[e.id].first == w.timers[e.id].first
    ensures !e.args.fuzzy ==> Next(w, e).timers[e.id].whenToFire == w.timers[e.id].first
  {
  }

  // The timeout to re-arm with leads to the time asked for, given as a timeout or, when it is
  // not past, as an absolute time.
  lemma TimeoutAsked(w: World, e: Event)
    requires Inv(w) && Enabled(w, e) && e.Schedule?
    requires w.clock <= Asked(w.clock, e.args.timeout, e.args.timeoutIsAbsolute)
    ensures w.clock + Next(w, e).timers[e.id].timeout
            == Asked(w.clock, e.args.timeout, e.args.timeoutIsAbsolute)
  {
    BoundIs(w.clock, e.args.timeout, e.args.timeoutIsAbsolute);
  }

  // What the step is told is what the timer keeps, and its count starts anew.
  lemma ScheduleKeeps(w: World, e: Event)
    requires Inv(w) && Enabled(w, e) && e.Schedule?
    ensures var r, r' := w.timers[e.id], Next(w, e).timers[e.id];
            && r'.kind == e.args.kind && r'.howMany == e.args.howMany && r'.fired == 0
            && r'.task == r.task && r'.pCb == (if r.pCb.Some? then r.pCb else Some(e.cb))
  {
  }

  // ---------- What is asked for stays ----------

  /** Type, limit, timeout, remembered first time and task are as they were. */
  predicate SameSettings(r: TimerRec, r': TimerRec) {
    && r'.kind == r.kind && r'.howMany == r.howMany && r'.timeout == r.timeout
    && r'.first == r.first && r'.task == r.task
  }

  lemma TaskKeepsSettings(w: World, e: Event)
    requires Inv(w) && Enabled(w, e) && (e.Iterate? || e.Deliver?)
    ensures var id := if e.Iterate? then e.top else w.queues[e.queue][0];
            && id in w.timers
            && (id in Next(w, e).timers ==> SameSettings(w.timers[id], Next(w, e).timers[id]))
  {
    if e.Iterate? {
      IterateEffect(w, e);
    } else {
      DeliverEffect(w, e);
    }
  }

  lemma StepKeepsSettings(w: World, e: Event, id: nat)
    requires Inv(w) && Enabled(w, e) && id in w.timers && !(e.Schedule? && e.id == id)
    ensures id in Next(w, e).timers ==> SameSettings(w.timers[id], Next(w, e).timers[id])
  {
    if Subject(w, e) != Some(id) {
      OthersUntouched(w, e, id);
    } else if e.Iterate? || e.Deliver? {
      TaskKeepsSettings(w, e);
    }
  }

  // In every run a timer keeps what it was scheduled with until it is scheduled anew or gone.
  lemma {:induction false} SettingsKept(w: World, es: seq<Event>, id: nat)
    requires Inv(w) && Runs(w, es) && id in w.timers
    requires forall e | e in es :: !((e.Schedule? || e.New?) && e.id == id)
    ensures id in Final(w, es).timers ==> SameSettings(w.timers[id], Final(w, es).timers[id])
    decreases es
  {
    if es != [] {
      var w' := Next(w, es[0]);
      StepKeepsSettings(w, es[0], id);
      if id in w'.timers {
        SettingsKept(w', es[1..], id);
      } else {
        StaysGone(w', es[1..], id);
      }
    }
  }

  lemma {:induction false} StaysGone(w: World, es: seq<Event>, id: nat)
    requires Inv(w) && Runs(w, es) && id !in w.timers
    requires forall e | e in es :: !(e.New? && e.id == id)
    ensures id !in Final(w, es).timers
    decreases es
  {
    if es != [] {
      ReachedTimersAreLive(w, es[0]);
      assert Subject(w, es[0]) != Some(id);
      OthersUntouched(w, es[0], id);
      StaysGone(Next(w, es[0]), es[1..], id);
    }
  }

  // ---------- The entry points of the application ----------

  // The arguments each of them passes on; dummy is a timeout nobody has set.

  function OneShotAtAbsoluteTime(time: nat, dummy: nat): ScheduleArgs {
    ScheduleArgs(time, true, dummy, false, OneShot, 0, false, 0)
  }

  function OneShotAtTimeout(timeout: nat, dummy: nat): ScheduleArgs {
    ScheduleArgs(timeout, false, dummy, false, OneShot, 0, false, 0)
  }

  function OneShotBetweenAbsoluteTimes(time1: nat, time2: nat, draw: nat): ScheduleArgs {
    ScheduleArgs(time1, true, time2, true, OneShot, 0, true, draw)
  }

  function OneShotBetweenTimeouts(timeout1: nat, timeout2: nat, draw: nat): ScheduleArgs {
    ScheduleArgs(timeout1, false, timeout2, false, OneShot, 0, true, draw)
  }

  function PeriodicAtAbsoluteTime(time: nat, timeout: nat, howMany: nat): ScheduleArgs {
    ScheduleArgs(time, true, timeout, false, Periodic, howMany, false, 0)
  }

  /** The timer as the step that schedules it with the given arguments leaves it. */
  ghost function AfterSchedule(w: World, id: nat, cb: nat, a: ScheduleArgs): TimerRec
    requires Inv(w) && Enabled(w, Schedule(id, cb, a))
  {
    Next(w, Schedule(id, cb, a)).timers[id]
  }

  // A one-shot at a timeout is due the timeout from now.
  lemma OneShotAtTimeoutDue(w: World, id: nat, cb: nat, timeout: nat, dummy: nat)
    requires Inv(w) && Enabled(w, Schedule(id, cb, OneShotAtTimeout(timeout, dummy)))
    requires w.clock + timeout < TWO_64
    ensures var r := AfterSchedule(w, id, cb, OneShotAtTimeout(timeout, dummy));
            r.kind == OneShot && r.whenToFire == w.clock + timeout
  {
    TimeoutFires(w, Schedule(id, cb, OneShotAtTimeout(timeout, dummy)));
  }

  // A one-shot between two timeouts is due later than the first and no later than the second,
  // and at any time between for some draw.
  lemma OneShotBetweenTimeoutsDue(w: World, id: nat, cb: nat, timeout1: nat, timeout2: nat, draw: nat)
    requires Inv(w) && Enabled(w, Schedule(id, cb, OneShotBetweenTimeouts(timeout1, timeout2, draw)))
    requires timeout1 < timeout2 && w.clock + timeout2 < TWO_64
    ensures var r := AfterSchedule(w, id, cb, OneShotBetweenTimeouts(timeout1, timeout2, draw));
            && r.kind == OneShot && w.clock + timeout1 < r.whenToFire <= w.clock + timeout2
            && (draw < timeout2 - timeout1 ==> r.whenToFire == w.clock + timeout1 + 1 + draw)
  {
    var e := Schedule(id, cb, OneShotBetweenTimeouts(timeout1, timeout2, draw));
    FuzzyFiresBetween(w, e, w.clock + timeout1, w.clock + timeout2);
    RemainderBelow(draw, timeout2 - timeout1);
  }

  // And a one-shot between two absolute times that are not past, between these.
  lemma OneShotBetweenAbsoluteTimesDue(w: World, id: nat, cb: nat, time1: nat, time2: nat, draw: nat)
    requires Inv(w) && Enabled(w, Schedule(id, cb, OneShotBetweenAbsoluteTimes(time1, time2, draw)))
    requires w.clock <= time1 < time2
    ensures var r := AfterSchedule(w, id, cb, OneShotBetweenAbsoluteTimes(time1, time2, draw));
            && r.kind == OneShot && time1 < r.whenToFire <= time2
            && (draw < time2 - time1 ==> r.whenToFire == time1 + 1 + draw)
  {
    var e := Schedule(id, cb, OneShotBetweenAbsoluteTimes(time1, time2, draw));
    FuzzyFiresBetween(w, e, time1, time2);
    RemainderBelow(draw, time2 - time1);
  }

  // One-shot or periodic at an absolute time: the time is taken from the member `first`; a
  // periodic timer then goes on with the timeout asked for.
  lemma AtAbsoluteTimeDue(w: World, id: nat, cb: nat, time: nat, timeout: nat, howMany: nat)
    requires Inv(w) && Enabled(w, Schedule(id, cb, PeriodicAtAbsoluteTime(time, timeout, howMany)))
    requires Enabled(w, Schedule(id, cb, OneShotAtAbsoluteTime(time, timeout)))
    ensures var p := AfterSchedule(w, id, cb, PeriodicAtAbsoluteTime(time, timeout, howMany));
            && p.kind == Periodic && p.howMany == howMany && p.timeout == timeout
            && p.whenToFire == w.timers[id].first
    ensures var o := AfterSchedule(w, id, cb, OneShotAtAbsoluteTime(time, timeout));
            o.kind == OneShot && o.whenToFire == w.timers[id].first
  {
  }

  // ---------- Timers that were never scheduled ----------

  predicate Unscheduled(w: World, id: nat) {
    id in w.timers && w.timers[id].kind == Invalid
  }

  lemma NewIsUnscheduled(w: World, id: nat, task: nat)
    requires Inv(w) && Enabled(w, New(id, task))
    ensures var w' := Next(w, New(id, task));
            && Unscheduled(w', id) && w'.timers[id].task == task
            && w'.timers[id].state == Idle && w'.timers[id].pCb == None
            && w'.timers[id].first == 0 && w'.timers[id].timeout == 0
  {
  }

  lemma StepKeepsUnscheduled(w: World, e: Event, id: nat)
    requires Inv(w) && Enabled(w, e) && Unscheduled(w, id)
    requires !((e.Schedule? || e.Delete?) && e.id == id)
    ensures Unscheduled(Next(w, e), id)
  {
    assert TimerOk(w, id);
    if Subject(w, e) != Some(id) {
      OthersUntouched(w, e, id);
    } else if e.Deliver? {
      HeadMessage(w, e.queue);
    }
  }

  lemma {:induction false} StaysUnscheduled(w: World, es: seq<Event>, id: nat)
    requires Inv(w) && Runs(w, es) && Unscheduled(w, id)
    requires forall e | e in es :: !((e.Schedule? || e.Delete?) && e.id == id)
    ensures Unscheduled(Final(w, es), id)
    decreases es
  {
    if es != [] {
      StepKeepsUnscheduled(w, es[0], id);
      StaysUnscheduled(Next(w, es[0]), es[1..], id);
    }
  }

  // Deleting a timer that was never scheduled asks nothing of the heap: as written, whatever
  // the stale slots hold, the array stays as it is.
  lemma UnscheduledDelete(m: Machine, id: nat)
    requires WrittenHeap.ArrayOk(m.a) && |m.w.queues| == MAX_TASKS && Unscheduled(m.w, id)
    ensures Removes(m.w, Delete(id)) == None && !Amiss(m, Delete(id))
    ensures Step(m, Delete(id)).Some? && Step(m, Delete(id)).value.a == m.a
  {
  }

  // From new on, through every step until it is scheduled or deleted.
  lemma NewThenDelete(w: World, id: nat, task: nat, es: seq<Event>, m: Machine)
    requires Inv(w) && Enabled(w, New(id, task)) && Runs(Next(w, New(id, task)), es)
    requires forall e | e in es :: !((e.Schedule? || e.Delete?) && e.id == id)
    requires m.w == Final(Next(w, New(id, task)), es) && WrittenHeap.ArrayOk(m.a)
    ensures Reaches(m.w, Delete(id)) && Removes(m.w, Delete(id)) == None && !Amiss(m, Delete(id))
    ensures Destroy(m.w, id).heap == m.w.heap && Destroy(m.w, id).deleted == m.w.deleted
  {
    NewIsUnscheduled(w, id, task);
    StaysUnscheduled(Next(w, New(id, task)), es, id);
    UnscheduledDelete(m, id);
    assert TimerOk(m.w, id);
  }
}
