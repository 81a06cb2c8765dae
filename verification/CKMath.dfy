/** The arithmetic helpers of the robot code, over the reals. */
module CKMath {

  const PI: real := 3.14159265358979323846

  function Abs(x: real): real {
    if x < 0.0 then -x else x
  }

  function Max(a: real, b: real): real {
    if a > b then a else b
  }

  function Min(a: real, b: real): real {
    if a < b then a else b
  }

  function Signum(x: real): int {
    (if 0.0 < x then 1 else 0) - (if x < 0.0 then 1 else 0)
  }

  function Limit(v: real, minVal: real, maxVal: real): real {
    Min(maxVal, Max(minVal, v))
  }

  function HandleDeadband(val: real, deadband: real): real {
    if Abs(val) > Abs(deadband) then val else 0.0
  }

  function Stretched(val: real, deadband: real): real
    requires deadband != 1.0
  {
    if Abs(val) <= Abs(deadband) then 0.0
    else if val > 0.0 then (val - deadband) / (1.0 - deadband)
    else (val + deadband) / (1.0 - deadband)
  }

  /** A joystick axis with its dead zone cut out and the rest stretched back to full range. */
  method NormalizeWithDeadband(val: real, deadband: real) returns (r: real)
    requires deadband != 1.0
    ensures r == Stretched(val, deadband)
  {
    r := HandleDeadband(val, deadband);
    if r != 0.0 {
      r := Signum(r) as real * ((Abs(r) - deadband) / (1.0 - deadband));
    }
  }

  lemma QuotientMonotone(a: real, b: real, c: real)
    requires c > 0.0 && a < b
    ensures a / c < b / c
  {
  }

  /** The stretched part of the axis lies in (0, 1], and full deflection stays full deflection. */
  lemma StretchedPositive(val: real, deadband: real)
    requires 0.0 <= deadband < val <= 1.0
    ensures 0.0 < Stretched(val, deadband) <= 1.0
    ensures val == 1.0 ==> Stretched(val, deadband) == 1.0
  {
    var c := 1.0 - deadband;
    QuotientMonotone(0.0, val - deadband, c);
    if val < 1.0 {
      QuotientMonotone(val - deadband, c, c);
    }
  }

  lemma StretchedIsOdd(val: real, deadband: real)
    requires 0.0 <= deadband < 1.0
    ensures Stretched(-val, deadband) == -Stretched(val, deadband)
  {
  }

  /** Stretching keeps the axis in full range, and is 0 in the dead zone only. */
  lemma StretchedRange(val: real, deadband: real)
    requires 0.0 <= deadband < 1.0 && -1.0 <= val <= 1.0
    ensures -1.0 <= Stretched(val, deadband) <= 1.0
    ensures Stretched(val, deadband) == 0.0 <==> Abs(val) <= deadband
  {
    StretchedIsOdd(val, deadband);
    if val > deadband {
      StretchedPositive(val, deadband);
    } else if val < -deadband {
      StretchedPositive(-val, deadband);
    }
  }

  lemma StretchedIsMonotone(val: real, val': real, deadband: real)
    requires 0.0 <= deadband < 1.0 && -1.0 <= val < val' <= 1.0
    ensures Stretched(val, deadband) <= Stretched(val', deadband)
  {
    var c := 1.0 - deadband;
    StretchedIsOdd(val, deadband);
    if val > deadband {
      QuotientMonotone(val - deadband, val' - deadband, c);
    } else if val' < -deadband {
      QuotientMonotone(val + deadband, val' + deadband, c);
    } else {
      if val' > deadband {
        StretchedPositive(val', deadband);
      }
      if val < -deadband {
        StretchedPositive(-val, deadband);
      }
    }
  }

  lemma ProductOver(t: real, c: real)
    requires t > 0.0 && c > 0.0
    ensures t * c > 0.0 && t * c / c == t
  {
  }

  /** Outside the dead zone the axis is stretched evenly: t of the way from its edge to full deflection becomes t. */
  lemma StretchedEvenly(t: real, deadband: real)
    requires 0.0 <= deadband < 1.0 && 0.0 < t <= 1.0
    ensures Stretched(deadband + t * (1.0 - deadband), deadband) == t
  {
    ProductOver(t, 1.0 - deadband);
    var val := deadband + t * (1.0 - deadband);
    assert Stretched(val, deadband) == (val - deadband) / (1.0 - deadband);
  }

  /** Limiting leaves what is in range alone, and moves everything else to the nearer end. */
  lemma LimitMeaning(v: real, low: real, high: real)
    requires low <= high
    ensures Limit(v, low, high) == if v < low then low else if v > high then high else v
  {
  }

  // ---------------------------------------------------------------- yaw angles

  /** The least number of turns that brings x down to 180. */
  function Turns(x: real): int {
    -((180.0 - x) / 360.0).Floor
  }

  /** The angle congruent to x modulo 360 that repeated subtraction or addition of 360 arrives at. */
  function NormalizedYaw(x: real): real {
    if x > 180.0 then x - 360.0 * Turns(x) as real
    else if x < -180.0 then x + 360.0 * Turns(-x) as real
    else x
  }

  lemma TurnsDown(x: real)
    requires x > 180.0
    ensures Turns(x) > 0 && Turns(x - 360.0) == Turns(x) - 1
    ensures NormalizedYaw(x - 360.0) == NormalizedYaw(x) && NormalizedYaw(-(x - 360.0)) == NormalizedYaw(-x)
  {
  }

  method NormalizeYaw(input: real) returns (r: real)
    ensures r == NormalizedYaw(input)
  {
    r := input;
    if input > 180.0 {
      TurnsDown(input);
    }
    while r > 180.0
      invariant NormalizedYaw(r) == NormalizedYaw(input)
      invariant input >= -180.0 ==> r >= -180.0
      decreases Turns(r)
    {
      TurnsDown(r);
      r := r - 360.0;
    }
    while r < -180.0
      invariant NormalizedYaw(r) == NormalizedYaw(input)
      invariant r <= 180.0
      decreases Turns(-r)
    {
      TurnsDown(-r);
      r := r + 360.0;
    }
  }

  function FullTurns(k: int): real {
    360.0 * k as real
  }

  ghost predicate Congruent(x: real, y: real) {
    exists k: int :: y == x + FullTurns(k)
  }

  lemma CongruentBy(x: real, y: real, k: int)
    requires y == x + FullTurns(k)
    ensures Congruent(x, y)
  {
  }

  lemma CongruentSum(x: real, x': real, y: real, y': real)
    requires Congruent(x, x') && Congruent(y, y')
    ensures Congruent(x + y, x' + y') && Congruent(x - y, x' - y') && Congruent(x', x)
  {
    var j: int :| x' == x + FullTurns(j);
    var k: int :| y' == y + FullTurns(k);
    CongruentBy(x + y, x' + y', j + k);
    CongruentBy(x - y, x' - y', j - k);
    CongruentBy(x', x, -j);
  }

  lemma CongruentTransitive(x: real, y: real, z: real)
    requires Congruent(x, y) && Congruent(y, z)
    ensures Congruent(x, z)
  {
    var j: int :| y == x + FullTurns(j);
    var k: int :| z == y + FullTurns(k);
    CongruentBy(x, z, j + k);
  }

  /** Every angle ends in [-180, 180], a whole number of turns away, and stays there. */
  lemma NormalizedYawMeaning(x: real)
    ensures -180.0 <= NormalizedYaw(x) <= 180.0
    ensures Congruent(x, NormalizedYaw(x))
    ensures NormalizedYaw(NormalizedYaw(x)) == NormalizedYaw(x)
  {
    var y := NormalizedYaw(x);
    if x > 180.0 {
      CongruentBy(x, y, -Turns(x));
    } else if x < -180.0 {
      CongruentBy(x, y, Turns(-x));
    } else {
      CongruentBy(x, y, 0);
    }
  }

  /** Two angles in range are congruent only if they are equal or the two names of the half turn. */
  lemma InRangeRepresentative(x: real, y: real)
    requires -180.0 <= x <= 180.0 && -180.0 <= y <= 180.0 && Congruent(x, y)
    ensures x == y || (Abs(x) == 180.0 && y == -x)
  {
  }
}
