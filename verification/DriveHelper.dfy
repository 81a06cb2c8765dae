/**
 The driver-feel arithmetic of the failover drivetrain, over the reals: negative inertia, quick
 stop and output clipping, with the two accumulators carried from call to call. The sine is any
 function that does not vanish at the two points it is divided by.
 */
module DriveHelperModel {
  import opened CKMath

  const HALF_PI: real := 1.57079632679489661923
  const HIGH_WHEEL_NON_LINEARITY: real := 0.65
  const LOW_WHEEL_NON_LINEARITY: real := 0.5
  const HIGH_NEG_INERTIA_SCALAR: real := 4.0
  const LOW_NEG_INERTIA_THRESHOLD: real := 0.65
  const LOW_NEG_INERTIA_TURN_SCALAR: real := 3.5
  const LOW_NEG_INERTIA_CLOSE_SCALAR: real := 4.0
  const LOW_NEG_INERTIA_FAR_SCALAR: real := 5.0
  const HIGH_SENSITIVITY: real := 0.95
  const LOW_SENSITIVITY: real := 1.3
  const QUICK_STOP_DEADBAND: real := 0.2
  const QUICK_STOP_WEIGHT: real := 0.1
  const QUICK_STOP_SCALAR: real := 5.0

  type Sine = real -> real

  predicate Usable(sin: Sine) {
    sin(HALF_PI * HIGH_WHEEL_NON_LINEARITY) != 0.0 && sin(HALF_PI * LOW_WHEEL_NON_LINEARITY) != 0.0
  }

  datatype Accumulators = Accumulators(oldWheel: real, quickStop: real, negInertia: real)

  datatype Input = Input(throttle: real, wheel: real, isQuickTurn: bool, isHighGear: bool)

  datatype Motors = Motors(left: real, right: real)

  // ---------------------------------------------------------------- specification of one call

  /** One pass of the wheel through the scaled sine. */
  function Curve(sin: Sine, nonLinearity: real, wheel: real): real
    requires sin(HALF_PI * nonLinearity) != 0.0
  {
    sin(HALF_PI * nonLinearity * wheel) / sin(HALF_PI * nonLinearity)
  }

  function Shaped(sin: Sine, wheel: real, isHighGear: bool): real
    requires Usable(sin)
  {
    if isHighGear then Curve(sin, HIGH_WHEEL_NON_LINEARITY, Curve(sin, HIGH_WHEEL_NON_LINEARITY, wheel))
    else
      Curve(sin, LOW_WHEEL_NON_LINEARITY,
            Curve(sin, LOW_WHEEL_NON_LINEARITY, Curve(sin, LOW_WHEEL_NON_LINEARITY, wheel)))
  }

  function InertiaScalar(shaped: real, negInertia: real, isHighGear: bool): real {
    if isHighGear then HIGH_NEG_INERTIA_SCALAR
    else if shaped * negInertia > 0.0 then LOW_NEG_INERTIA_TURN_SCALAR
    else if Abs(shaped) > LOW_NEG_INERTIA_THRESHOLD then LOW_NEG_INERTIA_FAR_SCALAR
    else LOW_NEG_INERTIA_CLOSE_SCALAR
  }

  /** One unit towards zero, and zero from within a unit. */
  function Decayed(x: real): real {
    if x > 1.0 then x - 1.0 else if x < -1.0 then x + 1.0 else 0.0
  }

  /** The inertia accumulator before it decays. */
  function Charged(a: Accumulators, i: Input, sin: Sine): real
    requires Usable(sin)
  {
    var negInertia := i.wheel - a.oldWheel;
    a.negInertia + negInertia * InertiaScalar(Shaped(sin, i.wheel, i.isHighGear), negInertia, i.isHighGear)
  }

  /** The wheel with inertia added, which turns the robot. */
  function Turn(a: Accumulators, i: Input, sin: Sine): real
    requires Usable(sin)
  {
    Shaped(sin, i.wheel, i.isHighGear) + Charged(a, i, sin)
  }

  function QuickStopAfter(a: Accumulators, i: Input, sin: Sine): real
    requires Usable(sin)
  {
    if !i.isQuickTurn then Decayed(a.quickStop)
    else if Abs(i.throttle) < QUICK_STOP_DEADBAND then
      (1.0 - QUICK_STOP_WEIGHT) * a.quickStop
      + QUICK_STOP_WEIGHT * Limit(Turn(a, i, sin), -1.0, 1.0) * QUICK_STOP_SCALAR
    else a.quickStop
  }

  function Next(a: Accumulators, i: Input, sin: Sine): Accumulators
    requires Usable(sin)
  {
    Accumulators(i.wheel, QuickStopAfter(a, i, sin), Decayed(Charged(a, i, sin)))
  }

  function AngularPower(a: Accumulators, i: Input, sin: Sine): real
    requires Usable(sin)
  {
    if i.isQuickTurn then Turn(a, i, sin)
    else
      Abs(i.throttle) * Turn(a, i, sin) * (if i.isHighGear then HIGH_SENSITIVITY else LOW_SENSITIVITY) - a.quickStop
  }

  /** What the clipping at the end of a call makes of the two powers. */
  function Clipped(linear: real, angular: real, overPower: real): Motors {
    var left, right := linear + angular, linear - angular;
    var m :=
      if left > 1.0 then Motors(1.0, right - overPower * (left - 1.0))
      else if right > 1.0 then Motors(left - overPower * (right - 1.0), 1.0)
      else if left < -1.0 then Motors(-1.0, right + overPower * (-1.0 - left))
      else if right < -1.0 then Motors(left + overPower * (-1.0 - right), -1.0)
      else Motors(left, right);
    Motors(Max(Min(m.left, 1.0), -1.0), Max(Min(m.right, 1.0), -1.0))
  }

  function Outputs(a: Accumulators, i: Input, sin: Sine): Motors
    requires Usable(sin)
  {
    Clipped(i.throttle, AngularPower(a, i, sin), if i.isQuickTurn then 1.0 else 0.0)
  }

  // ---------------------------------------------------------------- the class

  const START := Accumulators(0.0, 0.0, 0.0)

  class DriveHelper {
    var oldWheel: real
    var quickStopAccumulator: real
    var negInertiaAccumulator: real

    ghost function Value(): Accumulators
      reads this
    {
      Accumulators(oldWheel, quickStopAccumulator, negInertiaAccumulator)
    }

    constructor ()
      ensures Value() == START && START == Accumulators(0.0, 0.0, 0.0)
    {
      oldWheel, quickStopAccumulator, negInertiaAccumulator := 0.0, 0.0, 0.0;
    }

    method CalculateOutput(throttle: real, wheel: real, isQuickTurn: bool, isHighGear: bool, sin: Sine)
      returns (m: Motors)
      requires Usable(sin)
      modifies this
      ensures var i := Input(throttle, wheel, isQuickTurn, isHighGear);
              Value() == Next(old(Value()), i, sin) && m == Outputs(old(Value()), i, sin)
    {
      ghost var a, i := Value(), Input(throttle, wheel, isQuickTurn, isHighGear);
      var negInertia := wheel - oldWheel;
      oldWheel := wheel;
      var shaped := ShapeWheel(wheel, isHighGear, sin);
      var negInertiaScalar := NegInertiaScalar(shaped, negInertia, isHighGear);
      var sensitivity := if isHighGear then HIGH_SENSITIVITY else LOW_SENSITIVITY;
      var turn := AddInertia(shaped, negInertia * negInertiaScalar);
      assert turn == Turn(a, i, sin);
      if isQuickTurn {
        ChargeQuickStop(throttle, turn);
        m := Clip(throttle, turn, 1.0);
      } else {
        var angularPower := Abs(throttle) * turn * sensitivity - quickStopAccumulator;
        assert angularPower == AngularPower(a, i, sin);
        DecayQuickStop();
        m := Clip(throttle, angularPower, 0.0);
      }
    }

    method ShapeWheel(wheel: real, isHighGear: bool, sin: Sine) returns (shaped: real)
      requires Usable(sin)
      ensures shaped == Shaped(sin, wheel, isHighGear)
    {
      shaped := wheel;
      if isHighGear {
        var denominator := sin(HALF_PI * HIGH_WHEEL_NON_LINEARITY);
        shaped := sin(HALF_PI * HIGH_WHEEL_NON_LINEARITY * shaped) / denominator;
        shaped := sin(HALF_PI * HIGH_WHEEL_NON_LINEARITY * shaped) / denominator;
      } else {
        var denominator := sin(HALF_PI * LOW_WHEEL_NON_LINEARITY);
        shaped := sin(HALF_PI * LOW_WHEEL_NON_LINEARITY * shaped) / denominator;
        shaped := sin(HALF_PI * LOW_WHEEL_NON_LINEARITY * shaped) / denominator;
        shaped := sin(HALF_PI * LOW_WHEEL_NON_LINEARITY * shaped) / denominator;
      }
    }

    method NegInertiaScalar(shaped: real, negInertia: real, isHighGear: bool) returns (scalar: real)
      ensures scalar == InertiaScalar(shaped, negInertia, isHighGear)
    {
      if isHighGear {
        scalar := HIGH_NEG_INERTIA_SCALAR;
      } else if shaped * negInertia > 0.0 {
        scalar := LOW_NEG_INERTIA_TURN_SCALAR;
      } else if Abs(shaped) > LOW_NEG_INERTIA_THRESHOLD {
        scalar := LOW_NEG_INERTIA_FAR_SCALAR;
      } else {
        scalar := LOW_NEG_INERTIA_CLOSE_SCALAR;
      }
    }

    method AddInertia(shaped: real, negInertiaPower: real) returns (turn: real)
      modifies `negInertiaAccumulator
      ensures turn == shaped + (old(negInertiaAccumulator) + negInertiaPower)
      ensures negInertiaAccumulator == Decayed(old(negInertiaAccumulator) + negInertiaPower)
    {
      negInertiaAccumulator := negInertiaAccumulator + negInertiaPower;
      turn := shaped + negInertiaAccumulator;
      if negInertiaAccumulator > 1.0 {
        negInertiaAccumulator := negInertiaAccumulator - 1.0;
      } else if negInertiaAccumulator < -1.0 {
        negInertiaAccumulator := negInertiaAccumulator + 1.0;
      } else {
        negInertiaAccumulator := 0.0;
      }
    }

    method ChargeQuickStop(linearPower: real, turn: real)
      modifies `quickStopAccumulator
      ensures quickStopAccumulator ==
              if Abs(linearPower) < QUICK_STOP_DEADBAND then
                (1.0 - QUICK_STOP_WEIGHT) * old(quickStopAccumulator)
                + QUICK_STOP_WEIGHT * Limit(turn, -1.0, 1.0) * QUICK_STOP_SCALAR
              else old(quickStopAccumulator)
    {
      if Abs(linearPower) < QUICK_STOP_DEADBAND {
        quickStopAccumulator := (1.0 - QUICK_STOP_WEIGHT) * quickStopAccumulator
                                + QUICK_STOP_WEIGHT * Limit(turn, -1.0, 1.0) * QUICK_STOP_SCALAR;
      }
    }

    method DecayQuickStop()
      modifies `quickStopAccumulator
      ensures quickStopAccumulator == Decayed(old(quickStopAccumulator))
    {
      if quickStopAccumulator > 1.0 {
        quickStopAccumulator := quickStopAccumulator - 1.0;
      } else if quickStopAccumulator < -1.0 {
        quickStopAccumulator := quickStopAccumulator + 1.0;
      } else {
        quickStopAccumulator := 0.0;
      }
    }

    method Clip(linearPower: real, angularPower: real, overPower: real) returns (m: Motors)
      ensures m == Clipped(linearPower, angularPower, overPower)
    {
      var left, right := linearPower + angularPower, linearPower - angularPower;
      if left > 1.0 {
        right := right - overPower * (left - 1.0);
        left := 1.0;
      } else if right > 1.0 {
        left := left - overPower * (right - 1.0);
        right := 1.0;
      } else if left < -1.0 {
        right := right + overPower * (-1.0 - left);
        left := -1.0;
      } else if right < -1.0 {
        left := left + overPower * (-1.0 - right);
        right := -1.0;
      }
      m := Motors(Max(Min(left, 1.0), -1.0), Max(Min(right, 1.0), -1.0));
    }
  }

  // ---------------------------------------------------------------- over whole runs

  ghost function After(a: Accumulators, inputs: seq<Input>, sin: Sine): Accumulators
    requires Usable(sin)
  {
    if inputs == [] then a else Next(After(a, inputs[..|inputs| - 1], sin), inputs[|inputs| - 1], sin)
  }

  ghost predicate HighGearRun(inputs: seq<Input>) {
    forall i | 0 <= i < |inputs| :: inputs[i].isHighGear && -1.0 <= inputs[i].wheel <= 1.0
  }

  /** What the accumulator is off its undamped value, four times the wheel. */
  ghost predicate Telescoped(a: Accumulators) {
    Abs(a.negInertia - 4.0 * a.oldWheel) <= 4.0 && Abs(a.oldWheel) <= 1.0
  }

  lemma TelescopeStep(a: Accumulators, i: Input, sin: Sine)
    requires Usable(sin) && Telescoped(a) && i.isHighGear && Abs(i.wheel) <= 1.0
    ensures Telescoped(Next(a, i, sin))
  {
  }

  /** In high gear the wheel movements add up instead of piling up: however the wheel is turned, the accumulator stays
      within 4 of four times the wheel, hence within 8. */
  lemma {:induction false} TelescopingBound(inputs: seq<Input>, sin: Sine)
    requires Usable(sin) && HighGearRun(inputs)
    ensures Telescoped(After(START, inputs, sin)) && Abs(After(START, inputs, sin).negInertia) <= 8.0
  {
    if inputs != [] {
      TelescopingBound(inputs[..|inputs| - 1], sin);
      TelescopeStep(After(START, inputs[..|inputs| - 1], sin), inputs[|inputs| - 1], sin);
    }
  }

  // ---------------------------------------------------------------- the accumulator in either gear

  /** Three facts about the sine: it is no larger than its argument, has the argument's sign within [-3, 3], and is at
      least 0.7 at a quarter of pi. */
  ghost predicate SineLike(sin: Sine): (like: bool)
    ensures like ==> Usable(sin)
  {
    assert 0.0 < HALF_PI * HIGH_WHEEL_NON_LINEARITY <= 3.0;
    && (forall x :: Abs(sin(x)) <= Abs(x))
    && (forall x | 0.0 < x <= 3.0 :: sin(x) > 0.0)
    && (forall x | -3.0 <= x < 0.0 :: sin(x) < 0.0)
    && sin(HALF_PI * LOW_WHEEL_NON_LINEARITY) >= 0.7
  }

  /** y has the sign of x and is at most `factor` times as large. */
  ghost predicate Stretches(x: real, y: real, factor: real) {
    if x >= 0.0 then 0.0 <= y <= factor * x else factor * x <= y <= 0.0
  }

  lemma QuotientBetween(n: real, d: real, bound: real)
    requires d >= 0.7 && 0.0 <= n <= 0.7 * bound
    ensures 0.0 <= n / d <= bound && -bound <= -n / d <= 0.0
  {
    assert n / d * d == n;
    assert bound * d >= bound * 0.7;
    assert -n / d == -(n / d);
  }

  lemma CurveStretches(sin: Sine, w: real)
    requires SineLike(sin) && -1.5 <= w <= 1.5
    ensures Stretches(w, Curve(sin, LOW_WHEEL_NON_LINEARITY, w), 1.125)
  {
    var x := HALF_PI * LOW_WHEEL_NON_LINEARITY * w;
    assert Abs(sin(x)) <= Abs(x);
    QuotientBetween(Abs(sin(x)), sin(HALF_PI * LOW_WHEEL_NON_LINEARITY), 1.125 * Abs(w));
  }

  lemma LowGearStretches(sin: Sine, w: real)
    requires SineLike(sin) && -1.0 <= w <= 1.0
    ensures Stretches(w, Shaped(sin, w, false), 1.95)
  {
    var once := Curve(sin, LOW_WHEEL_NON_LINEARITY, w);
    var twice := Curve(sin, LOW_WHEEL_NON_LINEARITY, once);
    CurveStretches(sin, w);
    CurveStretches(sin, once);
    CurveStretches(sin, twice);
  }

  lemma OppositeSigns(x: real, y: real)
    requires x * y <= 0.0
    ensures x > 0.0 ==> y <= 0.0
    ensures x < 0.0 ==> y >= 0.0
  {
  }

  /** What a call adds beyond 3.5 times the wheel's movement is no more than the decay takes away: the scalar is larger
      only in high gear or when the wheel does not move away from the centre, and largest only far from it. */
  lemma ExcessIsSmall(sin: Sine, w: real, oldWheel: real, isHighGear: bool)
    requires SineLike(sin) && -1.0 <= w <= 1.0 && -1.0 <= oldWheel <= 1.0
    ensures var s := InertiaScalar(Shaped(sin, w, isHighGear), w - oldWheel, isHighGear);
            Abs((w - oldWheel) * (s - 3.5)) <= 1.0
  {
    if !isHighGear {
      var shaped := Shaped(sin, w, false);
      LowGearStretches(sin, w);
      if Abs(shaped) > LOW_NEG_INERTIA_THRESHOLD && shaped * (w - oldWheel) <= 0.0 {
        OppositeSigns(shaped, w - oldWheel);
        assert Abs(w - oldWheel) <= 1.0 - 1.0 / 3.0;
      }
    }
  }

  /** The accumulator before its decay is 3.5 times the wheel, give or take a unit, off from where it was. */
  lemma ChargeNearTelescopes(a: Accumulators, i: Input, sin: Sine)
    requires SineLike(sin) && Abs(i.wheel) <= 1.0 && Abs(a.oldWheel) <= 1.0
    ensures Abs((Charged(a, i, sin) - 3.5 * i.wheel) - (a.negInertia - 3.5 * a.oldWheel)) <= 1.0
  {
    var d, s := i.wheel - a.oldWheel,
                InertiaScalar(Shaped(sin, i.wheel, i.isHighGear), i.wheel - a.oldWheel, i.isHighGear);
    ExcessIsSmall(sin, i.wheel, a.oldWheel, i.isHighGear);
    assert d * s - 3.5 * d == d * (s - 3.5);
  }

  ghost predicate NearlyTelescoped(a: Accumulators) {
    Abs(a.negInertia - 3.5 * a.oldWheel) <= 3.5 && Abs(a.oldWheel) <= 1.0
  }

  lemma NearlyTelescopeStep(a: Accumulators, i: Input, sin: Sine)
    requires SineLike(sin) && NearlyTelescoped(a) && Abs(i.wheel) <= 1.0
    ensures NearlyTelescoped(Next(a, i, sin))
  {
    ChargeNearTelescopes(a, i, sin);
  }

  ghost predicate WheelInRange(inputs: seq<Input>) {
    forall i | 0 <= i < |inputs| :: -1.0 <= inputs[i].wheel <= 1.0
  }

  /** However the wheel is turned and the gears are shifted, the accumulator stays within 3.5 of 3.5 times the wheel,
      hence within 7. */
  lemma {:induction false} InertiaBound(inputs: seq<Input>, sin: Sine)
    requires SineLike(sin) && WheelInRange(inputs)
    ensures NearlyTelescoped(After(START, inputs, sin)) && Abs(After(START, inputs, sin).negInertia) <= 7.0
  {
    if inputs != [] {
      InertiaBound(inputs[..|inputs| - 1], sin);
      NearlyTelescopeStep(After(START, inputs[..|inputs| - 1], sin), inputs[|inputs| - 1], sin);
    }
  }

  ghost predicate WheelStill(a: Accumulators, inputs: seq<Input>) {
    forall i | 0 <= i < |inputs| :: inputs[i].wheel == a.oldWheel
  }

  /** With the wheel held, in either gear, the accumulator loses one unit per call until it is zero. */
  lemma {:induction false} StillWheelDischarges(a: Accumulators, inputs: seq<Input>, sin: Sine)
    requires Usable(sin) && WheelStill(a, inputs)
    ensures var b := After(a, inputs, sin);
            && b.oldWheel == a.oldWheel
            && (Abs(a.negInertia) <= |inputs| as real ==> b.negInertia == 0.0 || inputs == [])
            && (Abs(a.negInertia) > |inputs| as real ==> Abs(b.negInertia) == Abs(a.negInertia) - |inputs| as real)
  {
    if inputs != [] {
      var before := inputs[..|inputs| - 1];
      StillWheelDischarges(a, before, sin);
      var b := After(a, before, sin);
      assert Charged(b, inputs[|inputs| - 1], sin) == b.negInertia;
    }
  }

  /** After any high-gear run, eight calls with the wheel held bring the accumulator to exactly zero. */
  lemma EightStillCallsSuffice(inputs: seq<Input>, still: seq<Input>, sin: Sine)
    requires Usable(sin) && HighGearRun(inputs) && |still| >= 8 && WheelStill(After(START, inputs, sin), still)
    ensures After(After(START, inputs, sin), still, sin).negInertia == 0.0
  {
    TelescopingBound(inputs, sin);
    StillWheelDischarges(After(START, inputs, sin), still, sin);
  }

  /** After any run in any gears seven such calls are enough. */
  lemma SevenStillCallsSuffice(inputs: seq<Input>, still: seq<Input>, sin: Sine)
    requires SineLike(sin) && WheelInRange(inputs)
    requires |still| >= 7 && WheelStill(After(START, inputs, sin), still)
    ensures After(After(START, inputs, sin), still, sin).negInertia == 0.0
  {
    InertiaBound(inputs, sin);
    StillWheelDischarges(After(START, inputs, sin), still, sin);
  }

  /** The quick-stop accumulator is bounded in every run, in both gears and for any wheel and throttle. */
  lemma {:induction false} QuickStopBound(inputs: seq<Input>, sin: Sine)
    requires Usable(sin)
    ensures Abs(After(START, inputs, sin).quickStop) <= 5.0
  {
    if inputs != [] {
      QuickStopBound(inputs[..|inputs| - 1], sin);
    }
  }

  ghost predicate NoQuickTurn(inputs: seq<Input>) {
    forall i | 0 <= i < |inputs| :: !inputs[i].isQuickTurn
  }

  lemma {:induction false} QuickStopDischarges(a: Accumulators, inputs: seq<Input>, sin: Sine)
    requires Usable(sin) && NoQuickTurn(inputs)
    ensures var b := After(a, inputs, sin);
            && (Abs(a.quickStop) <= |inputs| as real ==> b.quickStop == 0.0 || inputs == [])
            && (Abs(a.quickStop) > |inputs| as real ==> Abs(b.quickStop) == Abs(a.quickStop) - |inputs| as real)
  {
    if inputs != [] {
      QuickStopDischarges(a, inputs[..|inputs| - 1], sin);
    }
  }

  lemma FiveCallsEndQuickStop(inputs: seq<Input>, rest: seq<Input>, sin: Sine)
    requires Usable(sin) && |rest| >= 5 && NoQuickTurn(rest)
    ensures After(After(START, inputs, sin), rest, sin).quickStop == 0.0
  {
    QuickStopBound(inputs, sin);
    QuickStopDischarges(After(START, inputs, sin), rest, sin);
  }

  /** A quick turn gives way on the linear power: within full throttle the two sides always differ by the demanded turn,
      up to the largest difference there is. */
  lemma QuickTurnKeepsTheTurn(a: Accumulators, i: Input, sin: Sine)
    requires Usable(sin) && i.isQuickTurn && Abs(i.throttle) <= 1.0
    ensures var m, turn := Outputs(a, i, sin), Turn(a, i, sin);
            && -1.0 <= m.left <= 1.0 && -1.0 <= m.right <= 1.0
            && m.left - m.right == Limit(2.0 * turn, -2.0, 2.0)
  {
  }

  /** Otherwise the four-way clipping is the same as limiting each side by itself. */
  lemma CurvatureDriveLimitsEachSide(a: Accumulators, i: Input, sin: Sine)
    requires Usable(sin) && !i.isQuickTurn
    ensures var m, angular := Outputs(a, i, sin), AngularPower(a, i, sin);
            && m.left == Limit(i.throttle + angular, -1.0, 1.0)
            && m.right == Limit(i.throttle - angular, -1.0, 1.0)
  {
  }

  // ---------------------------------------------------------------- what the outputs mean

  /** The wheel passes through the scaled sine twice in high gear and three times in low gear; full deflection stays
      full deflection. */
  lemma WheelCurve(sin: Sine, wheel: real)
    requires Usable(sin)
    ensures var d := sin(HALF_PI * 0.65);
            Shaped(sin, wheel, true) == sin(HALF_PI * 0.65 * (sin(HALF_PI * 0.65 * wheel) / d)) / d
    ensures var d := sin(HALF_PI * 0.5);
            var twice := sin(HALF_PI * 0.5 * (sin(HALF_PI * 0.5 * wheel) / d)) / d;
            Shaped(sin, wheel, false) == sin(HALF_PI * 0.5 * twice) / d
    ensures Shaped(sin, 1.0, true) == 1.0 && Shaped(sin, 1.0, false) == 1.0
  {
    var d, e := sin(HALF_PI * 0.65), sin(HALF_PI * 0.5);
    assert d / d == 1.0 && e / e == 1.0;
    assert HALF_PI * 0.65 * 1.0 == HALF_PI * 0.65 && HALF_PI * 0.5 * 1.0 == HALF_PI * 0.5;
  }

  /** How strongly a movement of the wheel counts. */
  lemma InertiaScalars(shaped: real, moved: real)
    ensures InertiaScalar(shaped, moved, true) == 4.0
    ensures shaped * moved > 0.0 ==> InertiaScalar(shaped, moved, false) == 3.5
    ensures shaped * moved <= 0.0 && -0.65 <= shaped <= 0.65 ==> InertiaScalar(shaped, moved, false) == 4.0
    ensures shaped * moved <= 0.0 && !(-0.65 <= shaped <= 0.65) ==> InertiaScalar(shaped, moved, false) == 5.0
  {
  }

  /** The turn that is asked for: the curve, what inertia has been accumulated, and what this movement adds. */
  lemma TurnOf(a: Accumulators, i: Input, sin: Sine)
    requires Usable(sin)
    ensures var moved := i.wheel - a.oldWheel;
            var shaped := Shaped(sin, i.wheel, i.isHighGear);
            Turn(a, i, sin) == shaped + a.negInertia + moved * InertiaScalar(shaped, moved, i.isHighGear)
  {
  }

  /** From rest, in high gear, moving the wheel turns the robot harder than holding it would. */
  lemma InertiaHelpsTheTurn(i: Input, sin: Sine)
    requires Usable(sin) && i.isHighGear
    ensures Turn(START, i, sin) == Shaped(sin, i.wheel, true) + 4.0 * i.wheel
  {
  }

  /** While both sides stay in range, the throttle drives them alike and the turn drives them apart; it grows with the
      throttle, forwards and backwards alike, by the sensitivity of the gear, and quick stop works against it. */
  lemma CurvatureDrive(a: Accumulators, i: Input, sin: Sine)
    requires Usable(sin) && !i.isQuickTurn
    ensures var speed := if i.throttle < 0.0 then -i.throttle else i.throttle;
            var turn := speed * Turn(a, i, sin) * (if i.isHighGear then 0.95 else 1.3) - a.quickStop;
            -1.0 <= i.throttle + turn <= 1.0 && -1.0 <= i.throttle - turn <= 1.0 ==>
              Outputs(a, i, sin) == Motors(i.throttle + turn, i.throttle - turn)
  {
  }

  /** Without a turn, a quick stop that has been charged by turning left or right turns the robot the other way, and at
      zero throttle by just as much as it has been charged. */
  lemma QuickStopOpposesTheTurn(a: Accumulators, i: Input, sin: Sine)
    requires Usable(sin) && !i.isQuickTurn
    ensures Turn(a, i, sin) == 0.0 && a.quickStop >= 0.0 ==> Outputs(a, i, sin).left <= Outputs(a, i, sin).right
    ensures Turn(a, i, sin) == 0.0 && a.quickStop <= 0.0 ==> Outputs(a, i, sin).left >= Outputs(a, i, sin).right
    ensures i.throttle == 0.0 && -1.0 <= a.quickStop <= 1.0 ==>
              Outputs(a, i, sin) == Motors(-a.quickStop, a.quickStop)
  {
  }

  /** A quick turn adds the turn to the throttle while both sides stay in range; beyond that one side is at its
      limit. */
  lemma QuickTurn(a: Accumulators, i: Input, sin: Sine)
    requires Usable(sin) && i.isQuickTurn
    ensures var turn, m := Turn(a, i, sin), Outputs(a, i, sin);
            if -1.0 <= i.throttle + turn <= 1.0 && -1.0 <= i.throttle - turn <= 1.0 then
              m == Motors(i.throttle + turn, i.throttle - turn)
            else Abs(m.left) == 1.0 || Abs(m.right) == 1.0
  {
  }

  /** In a quick turn at low throttle quick stop closes a tenth of its distance to five times the turn, which is cut off
      at 1; at higher throttle it stays as it is. */
  lemma QuickStopCharges(a: Accumulators, i: Input, sin: Sine)
    requires Usable(sin) && i.isQuickTurn
    ensures var turn, after := Turn(a, i, sin), Next(a, i, sin).quickStop;
            var goal := if turn > 1.0 then 5.0 else if turn < -1.0 then -5.0 else 5.0 * turn;
            after - a.quickStop == if -0.2 < i.throttle < 0.2 then (goal - a.quickStop) / 10.0 else 0.0
  {
  }
}
