/**
 The slew limiter of the failover drivetrain, over the reals, with the clock as a parameter. The
 ramp rates are times, in seconds from full off to full on and back.
 */
module ValueRamperModel {
  import opened CKMath

  datatype Rates = Rates(accel: real, decel: real, zero: real, max: real)

  ghost predicate Sensible(r: Rates) {
    r.accel > 0.0 && r.decel > 0.0 && r.zero <= r.max
  }

  function StepSize(r: Rates, rate: real, dt: real): real
    requires rate != 0.0
  {
    (r.max - r.zero) * dt / rate
  }

  /** The rate that applies on the way from prev to target: the sign of the target decides, and 0 counts as positive
      when it is approached from below. */
  function RateTowards(r: Rates, prev: real, target: real): real {
    if target >= 0.0 then (if target > prev then r.accel else r.decel)
    else (if target < prev then r.accel else r.decel)
  }

  /** The value after dt: the target, or a step of the applicable rate towards it. */
  function Ramped(r: Rates, prev: real, target: real, dt: real): real
    requires r.accel != 0.0 && r.decel != 0.0
  {
    var step := StepSize(r, RateTowards(r, prev, target), dt);
    if target > prev then Min(prev + step, target)
    else if target < prev then Max(prev - step, target)
    else target
  }

  /** The same as a choice between two steps. */
  function Moved(prev: real, target: real, accelStep: real, decelStep: real): real {
    if target > prev then Min(prev + (if target >= 0.0 then accelStep else decelStep), target)
    else if target < prev then Max(prev - (if target >= 0.0 then decelStep else accelStep), target)
    else target
  }

  lemma RampedIsMoved(r: Rates, prev: real, target: real, dt: real)
    requires r.accel != 0.0 && r.decel != 0.0
    ensures Ramped(r, prev, target, dt) == Moved(prev, target, StepSize(r, r.accel, dt), StepSize(r, r.decel, dt))
  {
  }

  /** The limiter's fields: the time of the last call, 0 before the first, and the value it left. */
  datatype State = State(prevTime: real, prevValue: real)

  function Called(r: Rates, s: State, target: real, now: real): State
    requires r.accel != 0.0 && r.decel != 0.0
  {
    State(now, if s.prevTime != 0.0 then Ramped(r, s.prevValue, target, now - s.prevTime) else s.prevValue)
  }

  class ValueRamper {
    const rates: Rates
    var prevTime: real
    var prevValue: real

    constructor (accelRampRate: real, decelRampRate: real, zeroValue: real, maxValue: real)
      ensures rates == Rates(accelRampRate, decelRampRate, zeroValue, maxValue) && Value() == State(0.0, 0.0)
    {
      rates := Rates(accelRampRate, decelRampRate, zeroValue, maxValue);
      prevTime, prevValue := 0.0, 0.0;
    }

    ghost function Value(): State
      reads this
    {
      State(prevTime, prevValue)
    }

    method Move(currValue: real, accelStep: real, decelStep: real)
      modifies `prevValue
      ensures prevValue == Moved(old(prevValue), currValue, accelStep, decelStep)
    {
      if currValue > prevValue && currValue >= 0.0 {
        prevValue := prevValue + accelStep;
        prevValue := Min(prevValue, currValue);
      } else if currValue < prevValue && currValue >= 0.0 {
        prevValue := prevValue - decelStep;
        prevValue := Max(prevValue, currValue);
      } else if currValue < prevValue && currValue <= 0.0 {
        prevValue := prevValue - accelStep;
        prevValue := Max(prevValue, currValue);
      } else if currValue > prevValue && currValue <= 0.0 {
        prevValue := prevValue + decelStep;
        prevValue := Min(prevValue, currValue);
      } else {
        prevValue := currValue;
      }
    }

    /** The first call only starts the clock and answers 0. */
    method CalculateOutput(currValue: real, timeNow: real) returns (output: real)
      requires rates.accel != 0.0 && rates.decel != 0.0
      modifies this
      ensures Value() == Called(rates, old(Value()), currValue, timeNow)
      ensures output == if old(prevTime) != 0.0 then prevValue else 0.0
      ensures old(prevTime) == 0.0 ==> prevValue == old(prevValue)
    {
      if prevTime != 0.0 {
        var dt := timeNow - prevTime;
        prevTime := timeNow;
        var accelStep, decelStep := StepSize(rates, rates.accel, dt), StepSize(rates, rates.decel, dt);
        RampedIsMoved(rates, prevValue, currValue, dt);
        Move(currValue, accelStep, decelStep);
        output := prevValue;
      } else {
        prevTime := timeNow;
        output := 0.0;
      }
    }
  }

  // ---------------------------------------------------------------- one call

  lemma StepSizes(r: Rates, rate: real, d1: real, d2: real)
    requires r.zero <= r.max && rate > 0.0 && 0.0 <= d1 && 0.0 <= d2
    ensures 0.0 <= StepSize(r, rate, d1)
    ensures StepSize(r, rate, d1) + StepSize(r, rate, d2) == StepSize(r, rate, d1 + d2)
  {
  }

  /** The value moves towards the target, by one step of the applicable rate or all the way, and never past it. */
  lemma MovesTowardsTarget(r: Rates, prev: real, target: real, dt: real)
    requires Sensible(r) && dt >= 0.0
    ensures var next, step := Ramped(r, prev, target, dt), StepSize(r, RateTowards(r, prev, target), dt);
            && Abs(next - prev) == Min(Abs(target - prev), step)
            && Abs(target - next) == Abs(target - prev) - Abs(next - prev)
            && (next == target <==> Abs(target - prev) <= step)
  {
    StepSizes(r, RateTowards(r, prev, target), dt, 0.0);
  }

  lemma RateIsKept(r: Rates, prev: real, target: real, dt: real)
    requires Sensible(r) && dt >= 0.0 && Ramped(r, prev, target, dt) != target
    ensures RateTowards(r, Ramped(r, prev, target, dt), target) == RateTowards(r, prev, target)
    ensures target > prev <==> target > Ramped(r, prev, target, dt)
  {
  }

  /** For a constant target it does not matter how often the limiter is called: two calls do what one does. */
  lemma RateIndependence(r: Rates, prev: real, target: real, d1: real, d2: real)
    requires Sensible(r) && d1 >= 0.0 && d2 >= 0.0
    ensures Ramped(r, Ramped(r, prev, target, d1), target, d2) == Ramped(r, prev, target, d1 + d2)
  {
    StepSizes(r, RateTowards(r, prev, target), d1, d2);
    StepSizes(r, RateTowards(r, prev, target), d2, 0.0);
    if Ramped(r, prev, target, d1) != target {
      RateIsKept(r, prev, target, d1);
    }
  }

  // ---------------------------------------------------------------- whole runs

  ghost predicate Increasing(t0: real, times: seq<real>) {
    && (forall i | 0 <= i < |times| :: t0 <= times[i])
    && (forall i, j | 0 <= i < j < |times| :: times[i] <= times[j])
  }

  ghost function AfterCalls(r: Rates, s: State, target: real, times: seq<real>): State
    requires Sensible(r)
  {
    if times == [] then s
    else Called(r, AfterCalls(r, s, target, times[..|times| - 1]), target, times[|times| - 1])
  }

  /** Any schedule of calls leaves the state of the last call alone. */
  lemma {:induction false} OnlyTheLastCallCounts(r: Rates, s: State, target: real, times: seq<real>)
    requires Sensible(r) && s.prevTime > 0.0 && times != [] && Increasing(s.prevTime, times)
    ensures AfterCalls(r, s, target, times) == Called(r, s, target, times[|times| - 1])
    ensures s.prevTime <= times[|times| - 1]
  {
    var before, last := times[..|times| - 1], times[|times| - 1];
    if before != [] {
      OnlyTheLastCallCounts(r, s, target, before);
      var t := before[|before| - 1];
      assert forall i | 0 <= i < |before| :: before[i] == times[i];
      assert t == times[|times| - 2];
      RateIndependence(r, s.prevValue, target, t - s.prevTime, last - t);
      assert (t - s.prevTime) + (last - t) == last - s.prevTime;
    }
  }

  lemma Times(a: real, b: real, c: real)
    requires c > 0.0
    ensures b <= a / c <==> b * c <= a
  {
  }

  lemma StepReaches(r: Rates, rate: real, dt: real, distance: real)
    requires rate > 0.0
    ensures distance <= StepSize(r, rate, dt) <==> distance * rate <= (r.max - r.zero) * dt
  {
  }

  /** The distance to the target weighted with the applicable rate, and what dt seconds cover of it. */
  function WeightedDistance(r: Rates, prev: real, target: real): real {
    Abs(target - prev) * RateTowards(r, prev, target)
  }

  function Covered(r: Rates, dt: real): real {
    (r.max - r.zero) * dt
  }

  lemma RampReaches(r: Rates, prev: real, target: real, dt: real)
    requires Sensible(r) && dt >= 0.0
    ensures Ramped(r, prev, target, dt) == target <==> WeightedDistance(r, prev, target) <= Covered(r, dt)
  {
  }

  /** A constant target is reached exactly when the time since the first call is the distance at the applicable rate,
      however the calls are spread. */
  lemma ReachesTargetIff(r: Rates, s: State, target: real, times: seq<real>)
    requires Sensible(r) && s.prevTime > 0.0 && times != [] && Increasing(s.prevTime, times)
    ensures AfterCalls(r, s, target, times).prevValue == target
            <==> WeightedDistance(r, s.prevValue, target) <= Covered(r, times[|times| - 1] - s.prevTime)
  {
    var dt := times[|times| - 1] - s.prevTime;
    OnlyTheLastCallCounts(r, s, target, times);
    RampReaches(r, s.prevValue, target, dt);
    assert AfterCalls(r, s, target, times).prevValue == Ramped(r, s.prevValue, target, dt);
  }

  // ---------------------------------------------------------------- what the rates mean

  lemma Cancel(full: real, rate: real, dt: real)
    requires full > 0.0
    ensures full * rate <= full * dt <==> rate <= dt
  {
  }

  lemma FullStep(r: Rates, rate: real, dt: real)
    requires r.zero < r.max && rate > 0.0
    ensures r.max - r.zero <= StepSize(r, rate, dt) <==> rate <= dt
  {
    StepReaches(r, rate, dt, r.max - r.zero);
    Cancel(r.max - r.zero, rate, dt);
  }

  /** Full off to full on takes the acceleration time, and full on to full off the deceleration time. */
  lemma FullScaleTimes(r: Rates, dt: real)
    requires Sensible(r) && r.zero < r.max && dt >= 0.0
    ensures var full := r.max - r.zero;
            && (Ramped(r, 0.0, full, dt) == full <==> r.accel <= dt)
            && (Ramped(r, full, 0.0, dt) == 0.0 <==> r.decel <= dt)
            && (Ramped(r, 0.0, -full, dt) == -full <==> r.accel <= dt)
  {
    var full := r.max - r.zero;
    MovesTowardsTarget(r, 0.0, full, dt);
    MovesTowardsTarget(r, full, 0.0, dt);
    MovesTowardsTarget(r, 0.0, -full, dt);
    FullStep(r, r.accel, dt);
    FullStep(r, r.decel, dt);
  }

  /** Away from 0, and across it, the acceleration rate applies; towards 0 on the same side, the deceleration rate,
      except for a stop from below. */
  lemma WhichRate(r: Rates, prev: real, target: real)
    requires prev != target
    ensures RateTowards(r, prev, target) ==
            if 0.0 <= target < prev || prev < target < 0.0 then r.decel else r.accel
  {
  }

  /** Driving backwards mirrors driving forwards exactly unless the target is 0: a stop from a negative value uses the
      acceleration rate, because the branch for decelerating to 0 from below is never reached. */
  lemma MirrorImageIff(r: Rates, prev: real, target: real, dt: real)
    requires Sensible(r) && dt >= 0.0
    ensures Ramped(r, -prev, -target, dt) == -Ramped(r, prev, target, dt)
            <==> || target != 0.0
                 || Min(Abs(prev), StepSize(r, r.accel, dt)) == Min(Abs(prev), StepSize(r, r.decel, dt))
  {
  }

  /** With the failover drivetrain's rates, stopping from full reverse takes two and a half times as long as stopping
      from full forward. */
  lemma ReverseStopsMoreSlowly()
    ensures var r := Rates(0.5, 0.2, 0.0, 1.0);
            Ramped(r, 1.0, 0.0, 0.2) == 0.0 && Ramped(r, -1.0, 0.0, 0.2) == -0.6 && Ramped(r, -1.0, 0.0, 0.5) == 0.0
  {
  }
}
