/** Timer objects: the fields of a Timer, updated in place in its pool slot. */
module Timers {
  import opened Common
  import opened HeapOrder
  import opened Protocol
  import opened TimerUtils

  class Timer {
    const slot: nat
    var kind: TimerType
    var state: TimerState
    var pCb: Option<nat>
    var task: nat
    var howMany: nat
    var fired: nat
    var first: nat
    var timeout: nat
    var whenToFire: nat

    constructor (slot: nat)
      ensures this.slot == slot
    {
      this.slot := slot;
    }

    ghost function Rec(): TimerRec
      reads this
    {
      TimerRec(kind, state, pCb, task, howMany, fired, first, timeout, whenToFire)
    }

    ghost function Key(): Entry<Timer>
      reads this
    {
      Entry(this, whenToFire)
    }

    /** The constructor, run in place in a slot from the pool. */
    method Construct(cbContextTask: nat)
      modifies this
      ensures Rec() == FreshRec(cbContextTask)
    {
      kind, state, pCb, task := Invalid, Idle, None, cbContextTask;
      first, timeout := 0, 0;
      howMany, fired, whenToFire := 0, 0, 0;
    }

    /** The part of schedule() that sets the fields, at clock reading now. */
    method SetSchedule(now: nat, cb: nat, a: ScheduleArgs)
      requires ArgsOk(now, a)
      modifies `kind, `state, `pCb, `howMany, `fired, `first, `timeout, `whenToFire
      ensures Rec() == Scheduled(now, old(Rec()), cb, a)
    {
      if pCb.None? {
        pCb := Some(cb);
      }
      state := Active;
      kind := a.kind;
      howMany := a.howMany;
      if a.fuzzy {
        var x1 := if a.firstIsAbsolute then AbsoluteToRelative(now, a.first) else a.first;
        var x2 := if a.timeoutIsAbsolute then AbsoluteToRelative(now, a.timeout) else a.timeout;
        if x2 < x1 {
          // Incorrect parameters: the firing time stays what it was.
        } else {
          whenToFire := TimeoutToAbsolute(now, FuzzyTimeout(x1, x2, a.draw));
        }
      } else if a.firstIsAbsolute {
        whenToFire := first;
      } else {
        first := a.first;
        whenToFire := TimeoutToAbsolute(now, first);
      }
      timeout := if a.timeoutIsAbsolute then AbsoluteToRelative(now, a.timeout) else a.timeout;
      fired := 0;
    }

    method SetTimerState(s: TimerState)
      modifies `state
      ensures state == s
    {
      state := s;
    }

    /** The fields changeFiringTime() and restart() set. */
    method SetNextFiring(now: nat, newTimeout: nat)
      modifies `timeout, `whenToFire, `state
      ensures Rec() == Rearmed(now, old(Rec()).(timeout := newTimeout))
    {
      timeout := newTimeout;
      whenToFire := TimeoutToAbsolute(now, newTimeout);
      state := Active;
    }

    method DropCallback()
      modifies `pCb
      ensures pCb == None
    {
      pCb := None;
    }

    method IncNumberOfTimesFired()
      modifies `fired
      ensures fired == (old(fired) + 1) % TWO_32
    {
      fired := (fired + 1) % TWO_32;
    }
  }
}
