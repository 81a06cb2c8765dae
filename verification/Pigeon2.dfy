/**
 The yaw offset of the inertial sensor: setting a yaw stores an offset to the raw reading, reading
 one adds it back. A reading that fails changes nothing and reports failure.
 */
module Pigeon2 {
  import opened Common
  import opened CKMath

  function Deg2Rad(degrees: real): real {
    degrees * PI / 180.0
  }

  /** A half turn is pi, and everything else in proportion. */
  lemma Radians(a: real, b: real)
    ensures 3.14159265358979 < Deg2Rad(180.0) < 3.14159265358980
    ensures Deg2Rad(a + b) == Deg2Rad(a) + Deg2Rad(b)
  {
  }

  /** What the device answers to a request for its raw angles, in degrees. */
  type Reading = Option<(real, real, real)>

  function OffsetFor(yaw: real, raw: real): real {
    NormalizedYaw(NormalizedYaw(yaw) - NormalizedYaw(raw))
  }

  function Reported(offset: real, raw: real): real {
    NormalizedYaw(NormalizedYaw(raw) + offset)
  }

  class CKPigeon2 {
    var yawOffset: real

    constructor ()
      ensures yawOffset == 0.0
    {
      yawOffset := 0.0;
    }

    method SetYaw(yaw: real, reading: Reading) returns (success: bool)
      modifies this
      ensures success == reading.Some?
      ensures yawOffset == if success then OffsetFor(yaw, reading.value.0) else old(yawOffset)
    {
      if reading.None? {
        return false;
      }
      var actual := NormalizeYaw(reading.value.0);
      var target := NormalizeYaw(yaw);
      yawOffset := NormalizeYaw(target - actual);
      return true;
    }

    /** Fills `ypr` with radians, or leaves it alone when the device does not answer. */
    method GetYPR(ypr: array<real>, reading: Reading) returns (success: bool)
      requires ypr.Length == 3
      modifies ypr
      ensures success == reading.Some?
      ensures ypr[..] == if success
                         then [Deg2Rad(Reported(yawOffset, reading.value.0)), Deg2Rad(reading.value.1),
                               Deg2Rad(reading.value.2)]
                         else old(ypr[..])
    {
      if reading.None? {
        return false;
      }
      var yprDeg := [reading.value.0, reading.value.1, reading.value.2];
      for i := 0 to 3
        invariant |yprDeg| == 3 && yprDeg[1..] == [reading.value.1, reading.value.2]
        invariant yprDeg[0] == if i == 0 then reading.value.0 else Reported(yawOffset, reading.value.0)
        invariant forall j | 0 <= j < i :: ypr[j] == Deg2Rad(yprDeg[j])
      {
        if i == 0 {
          var raw := NormalizeYaw(yprDeg[0]);
          var yaw := NormalizeYaw(raw + yawOffset);
          yprDeg := yprDeg[0 := yaw];
        }
        assert yprDeg[1] == yprDeg[1..][0] && yprDeg[2] == yprDeg[1..][1];
        ypr[i] := Deg2Rad(yprDeg[i]);
      }
      return true;
    }
  }

  /** The calls made on a sensor. */
  datatype Call = SetYawCall(yaw: real, reading: Reading) | GetYPRCall(reading: Reading)

  ghost function OffsetAfter(calls: seq<Call>): real {
    if calls == [] then 0.0
    else
      match calls[|calls| - 1]
      case SetYawCall(yaw, Some(r)) => OffsetFor(yaw, r.0)
      case _ => OffsetAfter(calls[..|calls| - 1])
  }

  predicate Sets(c: Call) {
    c.SetYawCall? && c.reading.Some?
  }

  lemma ReportedYaw(yaw: real, r: real, raw: real)
    ensures -180.0 <= Reported(OffsetFor(yaw, r), raw) <= 180.0
    ensures Congruent(yaw + raw - r, Reported(OffsetFor(yaw, r), raw))
  {
    var offset := OffsetFor(yaw, r);
    NormalizedYawMeaning(yaw);
    NormalizedYawMeaning(r);
    NormalizedYawMeaning(raw);
    NormalizedYawMeaning(NormalizedYaw(yaw) - NormalizedYaw(r));
    NormalizedYawMeaning(NormalizedYaw(raw) + offset);
    CongruentSum(yaw, NormalizedYaw(yaw), r, NormalizedYaw(r));
    CongruentTransitive(yaw - r, NormalizedYaw(yaw) - NormalizedYaw(r), offset);
    CongruentSum(raw, NormalizedYaw(raw), yaw - r, offset);
    CongruentTransitive(raw + (yaw - r), NormalizedYaw(raw) + offset, Reported(offset, raw));
  }

  /** Until the yaw is set the raw one is reported. */
  lemma {:induction false} UnsetYawIsRaw(calls: seq<Call>, raw: real)
    requires forall i | 0 <= i < |calls| :: !Sets(calls[i])
    ensures Reported(OffsetAfter(calls), raw) == NormalizedYaw(raw)
  {
    if calls != [] {
      UnsetYawIsRaw(calls[..|calls| - 1], raw);
    } else {
      NormalizedYawMeaning(raw);
    }
  }

  /** After the last successful setting of the yaw to y at raw reading r, whatever reads and failures follow, a
      reading r' is reported in range and congruent to y + r' - r. */
  lemma {:induction false} YawIsTracked(calls: seq<Call>, at: nat, raw: real)
    requires at < |calls| && Sets(calls[at]) && forall i | at < i < |calls| :: !Sets(calls[i])
    ensures var y, r := calls[at].yaw, calls[at].reading.value.0;
            var reported := Reported(OffsetAfter(calls), raw);
            -180.0 <= reported <= 180.0 && Congruent(y + raw - r, reported)
  {
    if at == |calls| - 1 {
      ReportedYaw(calls[at].yaw, calls[at].reading.value.0, raw);
    } else {
      YawIsTracked(calls[..|calls| - 1], at, raw);
    }
  }

  /** Read back at once, the yaw is the one that was set, up to the two names of the half turn. */
  lemma SetThenGet(yaw: real, raw: real)
    requires -180.0 <= yaw <= 180.0
    ensures var reported := Reported(OffsetFor(yaw, raw), raw);
            reported == yaw || (Abs(yaw) == 180.0 && reported == -yaw)
  {
  }
}
