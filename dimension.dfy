/** One tweened dimension (`Single` in ola): the transition it is in, how
    that transition is read at an instant, and how a new target takes over
    without a jump in value or in rate. */
module Dimension {
  import opened Curve

  /** The stored state of a dimension: the transition began at `start`,
      lasts `time` seconds, and moves from `from` to `to`; `speed` is the
      rate of the remaining displacement `to - value` inherited at `start`. */
  datatype Transition = Transition(start: real, time: real, from: real, to: real, speed: real)
  {
    /** The curve divides by the duration, so it must be positive. */
    predicate Valid()
    {
      time > 0.0
    }

    /** The value at `now` (`get`): the target once the duration has elapsed,
        otherwise the target minus the remaining displacement on the curve. */
    function ValueAt(now: real): real
      requires Valid()
    {
      var t := now - start;
      if t >= time then to else to - Position(to - from, speed, time, t)
    }

    /** The rate of the remaining displacement at `now` (`getSpeed`). */
    function SpeedAt(now: real): real
      requires Valid()
    {
      var t := now - start;
      if t >= time then 0.0 else Speed(to - from, speed, time, t)
    }

    /** The transition after `set(value, newTime)` at `now`; a `newTime` of 0
        stands for a duration that was not supplied. */
    function Retarget(value: real, newTime: real, now: real): (r: Transition)
      requires Valid() && newTime >= 0.0
      ensures r.Valid()
    {
      Transition(now, if newTime != 0.0 then newTime else time, ValueAt(now), value, SpeedAt(now))
    }
  }

  /** The transition of a freshly constructed dimension: at rest on `init`. */
  function Initial(init: real, time: real, now: real): (r: Transition)
    requires time > 0.0
    ensures r.Valid()
  {
    Transition(now, time, init, init, 0.0)
  }

  /** A fresh dimension reads `init` with rate 0 at every instant. */
  lemma InitialIsConstant(init: real, time: real, created: real, now: real)
    requires time > 0.0
    ensures Initial(init, time, created).ValueAt(now) == init
    ensures Initial(init, time, created).SpeedAt(now) == 0.0
  {
    var t := now - created;
    assert CoeffA(0.0, 0.0, time) == 0.0 / (time * time * time) == 0.0;
    assert CoeffB(0.0, 0.0, time) == -(0.0 / (time * time)) == 0.0;
    assert Position(0.0, 0.0, time, t) == 0.0;
  }

  /** Once the duration has elapsed the value is exactly the target and the
      rate is 0. */
  lemma SettledAfterDuration(s: Transition, now: real)
    requires s.Valid() && now - s.start >= s.time
    ensures s.ValueAt(now) == s.to && s.SpeedAt(now) == 0.0
  {
  }

  /** At its start a transition reads `from` with the inherited `speed`. */
  lemma StartsAtFrom(s: Transition)
    requires s.Valid()
    ensures s.ValueAt(s.start) == s.from && s.SpeedAt(s.start) == s.speed
  {
    StartPoint(s.to - s.from, s.speed, s.time);
  }

  /** The curve branch meets the settled branch: followed to the end of the
      duration, it arrives at the target with rate 0, so the shortcut to `to`
      and 0 introduces no jump. */
  lemma SettlesContinuously(s: Transition)
    requires s.Valid()
    ensures s.to - Position(s.to - s.from, s.speed, s.time, s.time) == s.to
    ensures Speed(s.to - s.from, s.speed, s.time, s.time) == 0.0
  {
    EndPoint(s.to - s.from, s.speed, s.time);
  }

  /** Inside the duration the value moves at minus `SpeedAt`: a step `h` that
      stays inside changes the value by `-h * SpeedAt(now)` up to a term
      quadratic in `h`. */
  lemma ValueMovesAgainstSpeed(s: Transition, now: real, h: real)
    requires s.Valid()
    requires now - s.start < s.time && now + h - s.start < s.time
    ensures s.ValueAt(now + h)
         == s.ValueAt(now) - h * s.SpeedAt(now)
            - h * h * StepRemainder(CoeffA(s.to - s.from, s.speed, s.time),
                                    CoeffB(s.to - s.from, s.speed, s.time), now - s.start, h)
  {
    assert now + h - s.start == (now - s.start) + h;
    SpeedIsDerivative(s.to - s.from, s.speed, s.time, now - s.start, h);
  }

  /** A retarget neither moves the value nor changes the rate at the instant
      it happens. */
  lemma RetargetIsContinuous(s: Transition, value: real, newTime: real, now: real)
    requires s.Valid() && newTime >= 0.0
    ensures s.Retarget(value, newTime, now).ValueAt(now) == s.ValueAt(now)
    ensures s.Retarget(value, newTime, now).SpeedAt(now) == s.SpeedAt(now)
  {
    var r := s.Retarget(value, newTime, now);
    StartsAtFrom(r);
  }

  /** After a retarget, once the (new or kept) duration has elapsed, the value
      is the new target and the rate is 0. */
  lemma RetargetReachesTarget(s: Transition, value: real, newTime: real, now: real, later: real)
    requires s.Valid() && newTime >= 0.0
    requires later - now >= (if newTime != 0.0 then newTime else s.time)
    ensures s.Retarget(value, newTime, now).ValueAt(later) == value
    ensures s.Retarget(value, newTime, now).SpeedAt(later) == 0.0
  {
  }

  /** `Single`: one dimension whose fields `set` updates in place. */
  class Single {
    var start: real
    var time: real
    var from: real
    var to: real
    var speed: real

    /** The fields form a valid `Transition`. */
    ghost predicate Valid()
      reads this
    {
      State().Valid()
    }

    /** The fields read as a `Transition`. */
    function State(): Transition
      reads this
    {
      Transition(start, time, from, to, speed)
    }

    /** `new Single(init, time)` at instant `now`. */
    constructor (init: real, time: real, now: real)
      requires time > 0.0
      ensures Valid()
      ensures start == now && this.time == time && from == init && to == init && speed == 0.0
      ensures State() == Initial(init, time, now)
    {
      start := now;
      this.time := time;
      from := init;
      to := init;
      speed := 0.0;
    }

    /** `get()` at instant `now`. */
    method Get(now: real) returns (r: real)
      requires Valid()
      ensures r == State().ValueAt(now)
      ensures now - start >= time ==> r == to
      ensures now == start ==> r == from
    {
      var t := now - start;
      if t >= time {
        return to;
      }
      r := to - Position(to - from, speed, time, t);
      StartsAtFrom(State());
    }

    /** `getSpeed()` at instant `now`. */
    method GetSpeed(now: real) returns (r: real)
      requires Valid()
      ensures r == State().SpeedAt(now)
      ensures now - start >= time ==> r == 0.0
      ensures now == start ==> r == speed
    {
      var t := now - start;
      if t >= time {
        return 0.0;
      }
      r := Speed(to - from, speed, time, t);
      StartsAtFrom(State());
    }

    /** `set(value, newTime)` at instant `now`: continue from the current value
        and rate toward `value`; a `newTime` of 0 keeps the duration. Returns
        the value the dimension had just before. */
    method Set(value: real, newTime: real, now: real) returns (current: real)
      requires Valid() && newTime >= 0.0
      modifies this
      ensures Valid()
      ensures current == old(State().ValueAt(now)) && speed == old(State().SpeedAt(now))
      ensures start == now && from == current && to == value
      ensures time == if newTime != 0.0 then newTime else old(time)
      ensures State() == old(State()).Retarget(value, newTime, now)
      ensures State().ValueAt(now) == current && State().SpeedAt(now) == speed
    {
      current := Get(now);
      speed := GetSpeed(now);
      start := now;
      from := current;
      to := value;
      if newTime != 0.0 {
        time := newTime;
      }
      StartsAtFrom(State());
    }
  }
}
