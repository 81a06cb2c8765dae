/**
 The differential update of one motor controller: the update functions registered per field, the
 reporter that dispatches to them, and exactly when it leaves a register as a full update would.
 The differencer is taken at its promise, for any order and repetition of its reports: it reports
 every field of the motor that the new message adds or changes, a nested message also when only
 something inside it differs or is gone. `LibraryReports` is the list that the library makes, and it
 keeps the promise.
 */
module TalonDifferential {
  import opened Common
  import opened TalonConfig

  /** The fields an update function is registered for. */
  predicate Handled(f: Field) {
    !f.Id? && !f.ControllerType? && !f.ControllerMode? && !f.CanNetwork?
  }

  predicate PeakField(f: Field) {
    f.MaxClosedLoopPeakOutput? || f.PeakOutputForward? || f.PeakOutputReverse?
  }

  predicate LimitSwitchField(f: Field) {
    || f.ForwardLimitSwitchSource? || f.ForwardLimitSwitchNormal?
    || f.ReverseLimitSwitchSource? || f.ReverseLimitSwitchNormal?
  }

  predicate CurrentLimitField(f: Field) {
    f.SupplyCurrentLimitConfig? || f.StatorCurrentLimitConfig?
  }

  /** The fields whose update function is a single device call with the field's value. */
  predicate HandledDirectly(f: Field) {
    Handled(f) && !PeakField(f) && !LimitSwitchField(f) && !CurrentLimitField(f) && !f.FeedbackSensorCanId?
  }

  /** The fields whose update function writes register r. */
  function Feeds(r: Register): set<Field> {
    match r
    case Direct(f) => if HandledDirectly(f) then {f} else {}
    case PeakForward => {PeakOutputForward}
    case PeakReverse => {PeakOutputReverse}
    case PeakClosedLoop => {MaxClosedLoopPeakOutput}
    case ForwardLimitSwitch => {ForwardLimitSwitchSource, ForwardLimitSwitchNormal}
    case ReverseLimitSwitch => {ReverseLimitSwitchSource, ReverseLimitSwitchNormal}
    case SupplyLimit => {SupplyCurrentLimitConfig}
    case StatorLimit => {StatorCurrentLimitConfig}
    case RemoteFilter => {FeedbackSensorCanId}
    case SelectedSensor => {FeedbackSensorCanId}
    case FramePeriod(_) => {}
  }

  /** What the update functions write to register r, given the new message. */
  function DiffSetting(m: Motor, kind: TalonKind, r: Register): Option<Setting> {
    match r
    case Direct(f) => if HandledDirectly(f) then Some(Number(m.Get(f))) else None
    case PeakForward => Some(PeakForwardSetting(m))
    case PeakReverse => Some(PeakReverseSetting(m))
    case PeakClosedLoop => Some(Number(m.Get(MaxClosedLoopPeakOutput)))
    case ForwardLimitSwitch =>
      Some(Switch(m.Get(ForwardLimitSwitchSource), m.Get(ForwardLimitSwitchNormal)))
    case ReverseLimitSwitch =>
      Some(Switch(m.Get(ReverseLimitSwitchSource), m.Get(ReverseLimitSwitchNormal)))
    case SupplyLimit => Some(LimitSetting(m, SupplyCurrentLimitConfig))
    case StatorLimit => if kind == TalonFX then Some(LimitSetting(m, StatorCurrentLimitConfig)) else None
    case RemoteFilter =>
      if m.Get(FeedbackSensorCanId) > 0.0 then Some(CanCoder(m.Get(FeedbackSensorCanId).Floor)) else None
    case SelectedSensor => Some(if m.Get(FeedbackSensorCanId) > 0.0 then RemoteSensor0 else IntegratedSensor)
    case FramePeriod(_) => None
  }

  ghost function TouchedSetting(touched: set<Field>, m: Motor, kind: TalonKind, r: Register): Option<Setting> {
    if Feeds(r) !! touched then None else DiffSetting(m, kind, r)
  }

  ghost function DiffRegisters(touched: set<Field>, m: Motor, kind: TalonKind, regs: Registers): Registers {
    Overlay(r => TouchedSetting(touched, m, kind, r), regs)
  }

  /** A null pointer is dereferenced when the remote sensor is not a registered encoder. */
  predicate EncoderMissing(m: Motor, encoders: set<int>) {
    m.Get(FeedbackSensorCanId) > 0.0 && m.Get(FeedbackSensorCanId).Floor !in encoders
  }

  datatype Descriptor = MotorField(field: Field) | LimitDescriptor(sub: LimitField)

  datatype ReportKind = Added | Modified | Deleted

  /** A report from inside a nested message has the path from the motor down, but carries only the nested messages. */
  datatype Report = Report(kind: ReportKind, path: seq<Descriptor>, inside: bool)

  /** Whether a field that both messages have differs, a nested message in its values or in their presence. */
  predicate ValueDiffers(m1: Motor, m2: Motor, f: Field)
    requires Top(f) in m1.values && Top(f) in m2.values
  {
    if CurrentLimitField(f) then exists s: LimitField :: m1.Inner(f, s) != m2.Inner(f, s)
    else m1.values[Top(f)] != m2.values[Top(f)]
  }

  /** The fields present in the new message that the old one lacked or had differently. */
  ghost function Touched(m1: Motor, m2: Motor): set<Field> {
    set f: Field | Top(f) in m2.values && (Top(f) !in m1.values || ValueDiffers(m1, m2, f))
  }

  /** The report runs the update function of f, if it has one. */
  predicate Runs(report: Report, f: Field) {
    report.kind != Deleted && !report.inside && MotorField(f) in report.path
  }

  /** What the differencer promises about its calls to the reporter; order and repetition are free. */
  ghost predicate ReportsDifferences(m1: Motor, m2: Motor, reports: seq<Report>) {
    && (forall f | f in Touched(m1, m2) && Handled(f) :: exists i | 0 <= i < |reports| :: Runs(reports[i], f))
    && (forall i, f | 0 <= i < |reports| && Handled(f) && Runs(reports[i], f) :: f in Touched(m1, m2))
  }

  // ---------------------------------------------------------------- the library's reports

  const LIMIT_FIELDS: seq<LimitField> := [Enable, CurrentLimit, TriggerThresholdCurrent, TriggerThresholdTime]

  /** The reports about one value inside a limit that both messages have. */
  function InsideReport(m1: Motor, m2: Motor, f: Field, s: LimitField): seq<Report> {
    var path := [MotorField(f), LimitDescriptor(s)];
    match (m1.Inner(f, s), m2.Inner(f, s))
    case (None, None) => []
    case (Some(_), None) => [Report(Deleted, path, true)]
    case (None, Some(_)) => [Report(Added, path, true)]
    case (Some(x), Some(y)) => if x != y then [Report(Modified, path, true)] else []
  }

  function InsideReports(m1: Motor, m2: Motor, f: Field, subs: seq<LimitField>): seq<Report> {
    if subs == [] then [] else InsideReport(m1, m2, f, subs[0]) + InsideReports(m1, m2, f, subs[1..])
  }

  /** The reports about one field: those inside a nested message come before the one about the field itself. */
  function FieldReports(m1: Motor, m2: Motor, f: Field): seq<Report> {
    if Top(f) in m1.values && Top(f) in m2.values then
      (if CurrentLimitField(f) then InsideReports(m1, m2, f, LIMIT_FIELDS) else [])
      + if ValueDiffers(m1, m2, f) then [Report(Modified, [MotorField(f)], false)] else []
    else if Top(f) in m1.values then [Report(Deleted, [MotorField(f)], false)]
    else if Top(f) in m2.values then [Report(Added, [MotorField(f)], false)]
    else []
  }

  /** The walk through the fields in the order of their numbers. */
  function LibraryReports(m1: Motor, m2: Motor, fields: seq<Field>): seq<Report> {
    if fields == [] then [] else FieldReports(m1, m2, fields[0]) + LibraryReports(m1, m2, fields[1..])
  }

  lemma {:induction false} InsideRunsNothing(m1: Motor, m2: Motor, f: Field, subs: seq<LimitField>)
    ensures forall report, g | report in InsideReports(m1, m2, f, subs) :: !Runs(report, g)
  {
    if subs != [] {
      InsideRunsNothing(m1, m2, f, subs[1..]);
    }
  }

  lemma {:induction false} InsideReportsOf(m1: Motor, m2: Motor, f: Field, subs: seq<LimitField>, report: Report)
    ensures report in InsideReports(m1, m2, f, subs) <==> exists s | s in subs :: report in InsideReport(m1, m2, f, s)
  {
    if subs != [] {
      InsideReportsOf(m1, m2, f, subs[1..], report);
    }
  }

  lemma InsideReportPath(m1: Motor, m2: Motor, f: Field, s: LimitField, report: Report)
    requires report in InsideReport(m1, m2, f, s)
    ensures report.path == [MotorField(f), LimitDescriptor(s)]
  {
  }

  lemma InsideReportKind(m1: Motor, m2: Motor, f: Field, s: LimitField, kind: ReportKind)
    ensures Report(kind, [MotorField(f), LimitDescriptor(s)], true) in InsideReport(m1, m2, f, s)
            <==> var was, now := m1.Inner(f, s), m2.Inner(f, s);
                 match kind
                 case Deleted => was.Some? && now.None?
                 case Added => was.None? && now.Some?
                 case Modified => was.Some? && now.Some? && was.value != now.value
  {
  }

  lemma EverySubIsListed(s: LimitField)
    ensures s in LIMIT_FIELDS
  {
    match s {
      case Enable => assert LIMIT_FIELDS[0] == s;
      case CurrentLimit => assert LIMIT_FIELDS[1] == s;
      case TriggerThresholdCurrent => assert LIMIT_FIELDS[2] == s;
      case TriggerThresholdTime => assert LIMIT_FIELDS[3] == s;
    }
  }

  /** A value inside a limit is reported deleted, added or modified exactly when it is gone, new or different. */
  lemma InsideReportsExactly(m1: Motor, m2: Motor, f: Field, sub: LimitField, kind: ReportKind)
    ensures Report(kind, [MotorField(f), LimitDescriptor(sub)], true) in InsideReports(m1, m2, f, LIMIT_FIELDS)
            <==> var was, now := m1.Inner(f, sub), m2.Inner(f, sub);
                 match kind
                 case Deleted => was.Some? && now.None?
                 case Added => was.None? && now.Some?
                 case Modified => was.Some? && now.Some? && was.value != now.value
  {
    var path := [MotorField(f), LimitDescriptor(sub)];
    var report := Report(kind, path, true);
    InsideReportsOf(m1, m2, f, LIMIT_FIELDS, report);
    EverySubIsListed(sub);
    InsideReportKind(m1, m2, f, sub, kind);
    forall s | report in InsideReport(m1, m2, f, s)
      ensures s == sub
    {
      InsideReportPath(m1, m2, f, s, report);
      assert path[1] == LimitDescriptor(s);
    }
  }

  lemma FieldReportsRun(m1: Motor, m2: Motor, f: Field)
    ensures forall report, g | report in FieldReports(m1, m2, f) && Runs(report, g) :: g == f && f in Touched(m1, m2)
    ensures f in Touched(m1, m2) ==> exists report :: report in FieldReports(m1, m2, f) && Runs(report, f)
  {
    InsideRunsNothing(m1, m2, f, LIMIT_FIELDS);
    if f in Touched(m1, m2) {
      var last := Report(if Top(f) in m1.values then Modified else Added, [MotorField(f)], false);
      assert last in FieldReports(m1, m2, f) && Runs(last, f);
    }
  }

  lemma {:induction false} LibraryReportsRun(m1: Motor, m2: Motor, fields: seq<Field>)
    ensures forall report, g | report in LibraryReports(m1, m2, fields) && Runs(report, g) :: g in Touched(m1, m2)
    ensures forall f | f in fields && f in Touched(m1, m2) ::
              exists report :: report in LibraryReports(m1, m2, fields) && Runs(report, f)
  {
    if fields != [] {
      FieldReportsRun(m1, m2, fields[0]);
      LibraryReportsRun(m1, m2, fields[1..]);
      forall f | f in fields && f in Touched(m1, m2)
        ensures exists report :: report in LibraryReports(m1, m2, fields) && Runs(report, f)
      {
        if f == fields[0] {
          var report :| report in FieldReports(m1, m2, f) && Runs(report, f);
          assert report in LibraryReports(m1, m2, fields);
        } else {
          var report :| report in LibraryReports(m1, m2, fields[1..]) && Runs(report, f);
          assert report in LibraryReports(m1, m2, fields);
        }
      }
    }
  }

  const FIELDS_1_TO_20: seq<Field> :=
    [Id, ControllerType, ControllerMode, Kp, Ki, Kd, Kf, Izone, MaxIAccum, AllowedClosedLoopError,
     MaxClosedLoopPeakOutput, MotionCruiseVelocity, MotionAcceleration, MotionSCurveStrength, ForwardSoftLimit,
     ForwardSoftLimitEnable, ReverseSoftLimit, ReverseSoftLimitEnable, FeedbackSensorCoefficient,
     VoltageCompensationSaturation]

  const FIELDS_21_TO_41: seq<Field> :=
    [VoltageCompensationEnabled, InvertType, SensorPhaseInverted, NeutralMode, OpenLoopRamp, ClosedLoopRamp,
     SupplyCurrentLimitConfig, StatorCurrentLimitConfig, ForwardLimitSwitchSource, ForwardLimitSwitchNormal,
     ReverseLimitSwitchSource, ReverseLimitSwitchNormal, PeakOutputForward, PeakOutputReverse, CanNetwork,
     FeedbackSensorCanId, ActiveGainSlot, Kp1, Ki1, Kd1, Kf1]

  const FIELDS_BY_NUMBER := FIELDS_1_TO_20 + FIELDS_21_TO_41

  function FieldNumber(f: Field): nat {
    match f
    case Id => 1 case ControllerType => 2 case ControllerMode => 3 case Kp => 4 case Ki => 5 case Kd => 6
    case Kf => 7 case Izone => 8 case MaxIAccum => 9 case AllowedClosedLoopError => 10
    case MaxClosedLoopPeakOutput => 11 case MotionCruiseVelocity => 12 case MotionAcceleration => 13
    case MotionSCurveStrength => 14 case ForwardSoftLimit => 15 case ForwardSoftLimitEnable => 16
    case ReverseSoftLimit => 17 case ReverseSoftLimitEnable => 18 case FeedbackSensorCoefficient => 19
    case VoltageCompensationSaturation => 20 case VoltageCompensationEnabled => 21 case InvertType => 22
    case SensorPhaseInverted => 23 case NeutralMode => 24 case OpenLoopRamp => 25 case ClosedLoopRamp => 26
    case SupplyCurrentLimitConfig => 27 case StatorCurrentLimitConfig => 28 case ForwardLimitSwitchSource => 29
    case ForwardLimitSwitchNormal => 30 case ReverseLimitSwitchSource => 31 case ReverseLimitSwitchNormal => 32
    case PeakOutputForward => 33 case PeakOutputReverse => 34 case CanNetwork => 35 case FeedbackSensorCanId => 36
    case ActiveGainSlot => 37 case Kp1 => 38 case Ki1 => 39 case Kd1 => 40 case Kf1 => 41
  }

  lemma LowNumbers(f: Field)
    requires FieldNumber(f) <= 20
    ensures 1 <= FieldNumber(f) && FIELDS_1_TO_20[FieldNumber(f) - 1] == f
  {
  }

  lemma HighNumbers(f: Field)
    requires FieldNumber(f) > 20
    ensures FieldNumber(f) <= 41 && FIELDS_21_TO_41[FieldNumber(f) - 21] == f
  {
  }

  lemma EveryFieldIsListed(f: Field)
    ensures f in FIELDS_BY_NUMBER
  {
    if FieldNumber(f) <= 20 {
      LowNumbers(f);
      assert f in FIELDS_1_TO_20;
    } else {
      HighNumbers(f);
      assert f in FIELDS_21_TO_41;
    }
  }

  /** The reports the library makes for two motor messages keep the promise. */
  lemma LibraryKeepsItsPromise(m1: Motor, m2: Motor)
    ensures ReportsDifferences(m1, m2, LibraryReports(m1, m2, FIELDS_BY_NUMBER))
  {
    var reports := LibraryReports(m1, m2, FIELDS_BY_NUMBER);
    LibraryReportsRun(m1, m2, FIELDS_BY_NUMBER);
    forall f | f in Touched(m1, m2) && Handled(f)
      ensures exists i | 0 <= i < |reports| :: Runs(reports[i], f)
    {
      EveryFieldIsListed(f);
      var report :| report in reports && Runs(report, f);
      var i :| 0 <= i < |reports| && reports[i] == report;
    }
  }

  // ---------------------------------------------------------------- the update functions

  /** The fields of a path that have an update function. */
  ghost function PathFields(path: seq<Descriptor>): set<Field> {
    set f: Field | MotorField(f) in path && Handled(f)
  }

  ghost function ReportFields(report: Report): set<Field> {
    if report.kind == Deleted || report.inside then {} else PathFields(report.path)
  }

  ghost function NamedFields(reports: seq<Report>): set<Field> {
    if reports == [] then {} else ReportFields(reports[0]) + NamedFields(reports[1..])
  }

  /** Runs of update functions for the same message merge: neither order nor repetition matters. */
  lemma UpdatesMerge(a: set<Field>, b: set<Field>, m: Motor, kind: TalonKind, regs: Registers)
    ensures DiffRegisters(b, m, kind, DiffRegisters(a, m, kind, regs)) == DiffRegisters(a + b, m, kind, regs)
  {
    SameRegisters(DiffRegisters(b, m, kind, DiffRegisters(a, m, kind, regs)), DiffRegisters(a + b, m, kind, regs));
  }

  lemma NoUpdates(m: Motor, kind: TalonKind, regs: Registers)
    ensures DiffRegisters({}, m, kind, regs) == regs
  {
    SameRegisters(DiffRegisters({}, m, kind, regs), regs);
  }

  lemma OneUpdate(f: Field, m: Motor, kind: TalonKind, before: Registers, regs: Registers)
    requires Handled(f)
    requires forall r :: Reg(regs, r) == if f in Feeds(r) && DiffSetting(m, kind, r).Some? then DiffSetting(m, kind, r)
                                         else Reg(before, r)
    ensures regs == DiffRegisters({f}, m, kind, before)
  {
    SameRegisters(regs, DiffRegisters({f}, m, kind, before));
  }

  lemma OneWrite(f: Field, m: Motor, kind: TalonKind, before: Registers, r: Register)
    requires Handled(f) && forall r' :: f in Feeds(r') <==> r' == r
    ensures DiffRegisters({f}, m, kind, before) ==
            if DiffSetting(m, kind, r).Some? then before[r := DiffSetting(m, kind, r).value] else before
  {
    OneUpdate(f, m, kind, before,
              if DiffSetting(m, kind, r).Some? then before[r := DiffSetting(m, kind, r).value] else before);
  }

  lemma DirectFeedsOne(f: Field, r: Register)
    requires HandledDirectly(f)
    ensures f in Feeds(r) <==> r == Direct(f)
  {
  }

  method UpdateDirect(f: Field, m: Motor, kind: TalonKind, before: Registers) returns (regs: Registers)
    requires HandledDirectly(f)
    ensures regs == DiffRegisters({f}, m, kind, before)
  {
    regs := before[Direct(f) := Number(m.Get(f))];
    forall r
      ensures f in Feeds(r) <==> r == Direct(f)
    {
      DirectFeedsOne(f, r);
    }
    OneWrite(f, m, kind, before, Direct(f));
  }

  method UpdatePeak(f: Field, m: Motor, kind: TalonKind, before: Registers) returns (regs: Registers)
    requires PeakField(f)
    ensures regs == DiffRegisters({f}, m, kind, before)
  {
    match f {
      case MaxClosedLoopPeakOutput =>
        regs := before[PeakClosedLoop := Number(m.Get(MaxClosedLoopPeakOutput))];
        OneWrite(f, m, kind, before, PeakClosedLoop);
      case PeakOutputForward =>
        regs := before[PeakForward := Number(if m.Get(PeakOutputForward) < 0.04 then 1.0
                                             else m.Get(PeakOutputForward))];
        OneWrite(f, m, kind, before, PeakForward);
      case PeakOutputReverse =>
        regs := before[PeakReverse := Number(if m.Get(PeakOutputReverse) > -0.04 then -1.0
                                             else m.Get(PeakOutputReverse))];
        OneWrite(f, m, kind, before, PeakReverse);
    }
  }

  method UpdateLimitSwitch(f: Field, m: Motor, kind: TalonKind, before: Registers) returns (regs: Registers)
    requires LimitSwitchField(f)
    ensures regs == DiffRegisters({f}, m, kind, before)
  {
    match f {
      case ForwardLimitSwitchSource | ForwardLimitSwitchNormal =>
        regs := before[ForwardLimitSwitch := Switch(m.Get(ForwardLimitSwitchSource), m.Get(ForwardLimitSwitchNormal))];
        OneWrite(f, m, kind, before, ForwardLimitSwitch);
      case ReverseLimitSwitchSource | ReverseLimitSwitchNormal =>
        regs := before[ReverseLimitSwitch := Switch(m.Get(ReverseLimitSwitchSource), m.Get(ReverseLimitSwitchNormal))];
        OneWrite(f, m, kind, before, ReverseLimitSwitch);
    }
  }

  method UpdateCurrentLimit(f: Field, m: Motor, kind: TalonKind, before: Registers) returns (regs: Registers)
    requires CurrentLimitField(f)
    ensures regs == DiffRegisters({f}, m, kind, before)
  {
    match f {
      case SupplyCurrentLimitConfig =>
        regs := before[SupplyLimit := LimitSetting(m, SupplyCurrentLimitConfig)];
        OneWrite(f, m, kind, before, SupplyLimit);
      case StatorCurrentLimitConfig =>
        regs := if kind == TalonFX then before[StatorLimit := LimitSetting(m, StatorCurrentLimitConfig)] else before;
        OneWrite(f, m, kind, before, StatorLimit);
    }
  }

  method UpdateFeedback(m: Motor, kind: TalonKind, before: Registers) returns (regs: Registers)
    ensures regs == DiffRegisters({FeedbackSensorCanId}, m, kind, before)
  {
    regs := before;
    if m.Get(FeedbackSensorCanId) > 0.0 {
      regs := regs[RemoteFilter := CanCoder(m.Get(FeedbackSensorCanId).Floor)];
      regs := regs[SelectedSensor := RemoteSensor0];
    } else {
      regs := regs[SelectedSensor := IntegratedSensor];
    }
    forall r
      ensures Reg(regs, r) == if FeedbackSensorCanId in Feeds(r) && DiffSetting(m, kind, r).Some?
                              then DiffSetting(m, kind, r) else Reg(before, r)
    {
      if r == RemoteFilter || r == SelectedSensor {
        assert FeedbackSensorCanId in Feeds(r);
      } else {
        assert FeedbackSensorCanId !in Feeds(r);
      }
    }
    OneUpdate(FeedbackSensorCanId, m, kind, before, regs);
  }

  /** The update function registered for field f, for a motor whose remote sensor, if any, is a known encoder. */
  method RunUpdateFunction(f: Field, m: Motor, kind: TalonKind, before: Registers) returns (regs: Registers)
    requires Handled(f)
    ensures regs == DiffRegisters({f}, m, kind, before)
  {
    if PeakField(f) {
      regs := UpdatePeak(f, m, kind, before);
    } else if LimitSwitchField(f) {
      regs := UpdateLimitSwitch(f, m, kind, before);
    } else if CurrentLimitField(f) {
      regs := UpdateCurrentLimit(f, m, kind, before);
    } else if f == FeedbackSensorCanId {
      regs := UpdateFeedback(m, kind, before);
    } else {
      regs := UpdateDirect(f, m, kind, before);
    }
  }

  ghost function HandledTouched(m1: Motor, m2: Motor): set<Field> {
    set f | f in Touched(m1, m2) && Handled(f)
  }

  lemma {:induction false} NamedMembers(reports: seq<Report>, f: Field)
    ensures f in NamedFields(reports) <==> Handled(f) && exists i | 0 <= i < |reports| :: Runs(reports[i], f)
  {
    if reports != [] {
      var rest := reports[1..];
      NamedMembers(rest, f);
      if f in NamedFields(rest) {
        var i :| 0 <= i < |rest| && Runs(rest[i], f);
        assert reports[i + 1] == rest[i];
      }
      if exists i | 0 <= i < |reports| :: Runs(reports[i], f) {
        var i :| 0 <= i < |reports| && Runs(reports[i], f);
        assert i > 0 ==> rest[i - 1] == reports[i];
      }
    }
  }

  lemma NamedAreTouched(m1: Motor, m2: Motor, reports: seq<Report>)
    requires ReportsDifferences(m1, m2, reports)
    ensures NamedFields(reports) == HandledTouched(m1, m2)
  {
    forall f: Field
      ensures f in NamedFields(reports) <==> f in HandledTouched(m1, m2)
    {
      NamedMembers(reports, f);
    }
  }

  lemma {:induction false} NamedAppend(a: seq<Report>, b: seq<Report>)
    ensures NamedFields(a + b) == NamedFields(a) + NamedFields(b)
  {
    if a == [] {
      assert a + b == b;
    } else {
      ConsAppend(a, b);
      NamedAppend(a[1..], b);
    }
  }

  lemma NamedSnoc(reports: seq<Report>, i: nat)
    requires i < |reports|
    ensures NamedFields(reports[..i + 1]) ==
            NamedFields(reports[..i]) + ReportFields(reports[i])
  {
    assert reports[..i + 1] == reports[..i] + [reports[i]];
    NamedAppend(reports[..i], [reports[i]]);
    assert NamedFields([reports[i]][1..]) == {};
  }

  lemma NamedMonotone(reports: seq<Report>, i: nat)
    requires i <= |reports|
    ensures NamedFields(reports[..i]) <= NamedFields(reports)
  {
    assert reports == reports[..i] + reports[i..];
    NamedAppend(reports[..i], reports[i..]);
  }

  /** What a report carries as the new message: the motor's, or the limit inside it that the path leads into. */
  datatype Carried = Whole(motor: Motor) | Inside(motor: Motor)

  /** The fields on a path whose update functions write. Called with a nested message they do nothing, because it is
      not a motor's. */
  ghost function WrittenFields(m2: Carried, path: seq<Descriptor>): set<Field> {
    if m2.Whole? then PathFields(path) else {}
  }

  /** What one step of a path contributes. */
  ghost function WrittenField(m2: Carried, d: Descriptor): set<Field> {
    if m2.Whole? && d.MotorField? && Handled(d.field) then {d.field} else {}
  }

  lemma WrittenSnoc(m2: Carried, path: seq<Descriptor>, i: nat)
    requires i < |path|
    ensures WrittenFields(m2, path[..i + 1]) == WrittenFields(m2, path[..i]) + WrittenField(m2, path[i])
  {
    assert path[..i + 1] == path[..i] + [path[i]];
  }

  lemma WrittenMonotone(m2: Carried, path: seq<Descriptor>, i: nat)
    requires i <= |path|
    ensures WrittenFields(m2, path[..i]) <= WrittenFields(m2, path)
  {
  }

  class DifferentialUpdateReporter {
    var updateFunctions: set<Descriptor>

    /** The functions are registered once, by the task's constructor. */
    ghost predicate Valid()
      reads this
    {
      && (forall f :: MotorField(f) in updateFunctions <==> Handled(f))
      && (forall s :: LimitDescriptor(s) !in updateFunctions)
    }

    constructor ()
      ensures Valid()
    {
      updateFunctions := set f: Field | Handled(f) :: MotorField(f);
    }

    /** The function registered for a step of the path, if there is one, with whatever message the report carries. */
    method CallUpdateFunction(d: Descriptor, m2: Carried, kind: TalonKind, encoders: set<int>, before: Registers)
      returns (regs: Registers, crashed: bool)
      requires Valid()
      ensures crashed == (FeedbackSensorCanId in WrittenField(m2, d) && EncoderMissing(m2.motor, encoders))
      ensures !crashed ==> regs == DiffRegisters(WrittenField(m2, d), m2.motor, kind, before)
    {
      regs, crashed := before, false;
      NoUpdates(m2.motor, kind, before);
      if d in updateFunctions && m2.Whole? {
        crashed := d.field == FeedbackSensorCanId && EncoderMissing(m2.motor, encoders);
        if !crashed {
          regs := RunUpdateFunction(d.field, m2.motor, kind, before);
        }
      }
    }

    method ReportAdded(m2: Carried, path: seq<Descriptor>, kind: TalonKind, encoders: set<int>, before: Registers)
      returns (regs: Registers, crashed: bool)
      requires Valid()
      ensures crashed == (FeedbackSensorCanId in WrittenFields(m2, path) && EncoderMissing(m2.motor, encoders))
      ensures !crashed ==> regs == DiffRegisters(WrittenFields(m2, path), m2.motor, kind, before)
    {
      regs, crashed := ReportModified(m2, path, kind, encoders, before);
    }

    method ReportModified(m2: Carried, path: seq<Descriptor>, kind: TalonKind, encoders: set<int>, before: Registers)
      returns (regs: Registers, crashed: bool)
      requires Valid()
      ensures crashed == (FeedbackSensorCanId in WrittenFields(m2, path) && EncoderMissing(m2.motor, encoders))
      ensures !crashed ==> regs == DiffRegisters(WrittenFields(m2, path), m2.motor, kind, before)
    {
      regs, crashed := before, false;
      NoUpdates(m2.motor, kind, before);
      ghost var done := WrittenFields(m2, path[..0]);
      assert done == {};
      var i := 0;
      while i < |path| && !crashed
        invariant i <= |path| && done == WrittenFields(m2, path[..i])
        invariant crashed == (FeedbackSensorCanId in done && EncoderMissing(m2.motor, encoders))
        invariant !crashed ==> regs == DiffRegisters(done, m2.motor, kind, before)
        decreases |path| - i
      {
        ghost var hit := WrittenField(m2, path[i]);
        WrittenSnoc(m2, path, i);
        UpdatesMerge(done, hit, m2.motor, kind, before);
        regs, crashed := CallUpdateFunction(path[i], m2, kind, encoders, regs);
        done := done + hit;
        i := i + 1;
      }
      WrittenMonotone(m2, path, i);
      assert path[..|path|] == path;
    }

    /** Deletions are ignored: a field that goes back to its default leaves its register as it was. */
    method ReportDeleted(m2: Carried, path: seq<Descriptor>, before: Registers) returns (regs: Registers)
      ensures regs == before
    {
      regs := before;
    }

    method Report(m2: Motor, report: Report, kind: TalonKind, encoders: set<int>, before: Registers)
      returns (regs: Registers, crashed: bool)
      requires Valid()
      ensures crashed == (FeedbackSensorCanId in ReportFields(report) && EncoderMissing(m2, encoders))
      ensures !crashed ==> regs == DiffRegisters(ReportFields(report), m2, kind, before)
    {
      var carried := if report.inside then Inside(m2) else Whole(m2);
      match report.kind {
        case Deleted =>
          regs := ReportDeleted(carried, report.path, before);
          crashed := false;
          NoUpdates(m2, kind, before);
        case Added =>
          regs, crashed := ReportAdded(carried, report.path, kind, encoders, before);
        case Modified =>
          regs, crashed := ReportModified(carried, report.path, kind, encoders, before);
      }
    }

    /** The calls the differencer makes for one comparison. */
    method Deliver(m2: Motor, reports: seq<Report>, kind: TalonKind, encoders: set<int>, before: Registers)
      returns (regs: Registers, crashed: bool)
      requires Valid()
      ensures crashed == (FeedbackSensorCanId in NamedFields(reports) && EncoderMissing(m2, encoders))
      ensures !crashed ==> regs == DiffRegisters(NamedFields(reports), m2, kind, before)
    {
      regs := before;
      NoUpdates(m2, kind, before);
      for i := 0 to |reports|
        invariant regs == DiffRegisters(NamedFields(reports[..i]), m2, kind, before)
        invariant !(FeedbackSensorCanId in NamedFields(reports[..i]) && EncoderMissing(m2, encoders))
      {
        NamedSnoc(reports, i);
        UpdatesMerge(NamedFields(reports[..i]), ReportFields(reports[i]), m2, kind, before);
        regs, crashed := Report(m2, reports[i], kind, encoders, regs);
        if crashed {
          NamedMonotone(reports, i + 1);
          return;
        }
      }
      assert reports[..|reports|] == reports;
      crashed := false;
    }

    /** The outcome depends on the two messages only, not on how the differencer reports them. */
    method Compare(m1: Motor, m2: Motor, reports: seq<Report>, kind: TalonKind, encoders: set<int>, before: Registers)
      returns (regs: Registers, crashed: bool)
      requires Valid() && ReportsDifferences(m1, m2, reports)
      ensures crashed == (FeedbackSensorCanId in HandledTouched(m1, m2) && EncoderMissing(m2, encoders))
      ensures !crashed ==> regs == DiffRegisters(HandledTouched(m1, m2), m2, kind, before)
    {
      NamedAreTouched(m1, m2, reports);
      regs, crashed := Deliver(m2, reports, kind, encoders, before);
    }
  }

  // ---------------------------------------------------------------- when the two agree

  /** The registers both updates write from the same fields in the same way. */
  predicate Shared(r: Register) {
    && r != PeakClosedLoop && !r.FramePeriod?
    && r != Direct(FeedbackSensorCoefficient) && r != Direct(SensorPhaseInverted)
  }

  /** The registers hold what a full update with m would write. */
  ghost predicate InSync(m: Motor, kind: TalonKind, regs: Registers) {
    forall r :: FullSetting(m, kind, r).Some? ==> Reg(regs, r) == FullSetting(m, kind, r)
  }

  /** The shared registers hold what a full update with m would write. */
  ghost predicate SharedInSync(m: Motor, kind: TalonKind, regs: Registers) {
    forall r | Shared(r) :: FullSetting(m, kind, r).Some? ==> Reg(regs, r) == FullSetting(m, kind, r)
  }

  /** The differential update, driven by any reports of the differences, leaves register r as the full update would. */
  ghost predicate UpdatesAgree(m1: Motor, m2: Motor, kind: TalonKind, regs: Registers, r: Register) {
    Reg(DiffRegisters(HandledTouched(m1, m2), m2, kind, regs), r) == Reg(FullRegisters(m2, kind, regs), r)
  }

  lemma FeedersAreHandled(r: Register)
    ensures forall f | f in Feeds(r) :: Handled(f)
  {
    match r {
      case Direct(f) =>
      case _ =>
    }
  }

  /** All fields but two have a device call in both updates or in neither. */
  lemma FieldsOfBoth(f: Field)
    requires f != FeedbackSensorCoefficient && f != SensorPhaseInverted
    ensures FieldStage(f) == 8 <==> !HandledDirectly(f)
  {
    match f {
      case VoltageCompensationSaturation | VoltageCompensationEnabled | InvertType | NeutralMode
         | OpenLoopRamp | ClosedLoopRamp =>
      case Kp | Ki | Kd | Kf | Kp1 | Ki1 | Kd1 | Kf1 | ActiveGainSlot =>
      case Izone | MaxIAccum | AllowedClosedLoopError | MotionCruiseVelocity | MotionAcceleration
         | MotionSCurveStrength =>
      case ForwardSoftLimit | ForwardSoftLimitEnable | ReverseSoftLimit | ReverseSoftLimitEnable =>
      case Id | ControllerType | ControllerMode | CanNetwork | FeedbackSensorCanId | MaxClosedLoopPeakOutput
         | PeakOutputForward | PeakOutputReverse | SupplyCurrentLimitConfig | StatorCurrentLimitConfig
         | ForwardLimitSwitchSource | ForwardLimitSwitchNormal | ReverseLimitSwitchSource
         | ReverseLimitSwitchNormal | FeedbackSensorCoefficient | SensorPhaseInverted =>
    }
  }

  lemma DirectSetting(m: Motor, kind: TalonKind, f: Field)
    ensures FullSetting(m, kind, Direct(f)) ==
            if FieldStage(f) == 8 || (2 <= FieldStage(f) <= 5 && !IsMaster(m)) then None else Some(Number(m.Get(f)))
  {
  }

  lemma SharedSetting(m: Motor, kind: TalonKind, r: Register)
    requires Shared(r)
    ensures FullSetting(m, kind, r).Some? ==> Feeds(r) != {} && DiffSetting(m, kind, r) == FullSetting(m, kind, r)
    ensures IsMaster(m) && FullSetting(m, kind, r).None? ==> DiffSetting(m, kind, r).None?
    ensures forall f | f in Feeds(r) :: Handled(f)
  {
    FeedersAreHandled(r);
    match r {
      case Direct(f) =>
        FieldsOfBoth(f);
        DirectSetting(m, kind, f);
      case _ =>
    }
  }

  lemma DiffRegister(m1: Motor, m2: Motor, kind: TalonKind, regs: Registers, r: Register)
    requires Shared(r)
    ensures Reg(DiffRegisters(HandledTouched(m1, m2), m2, kind, regs), r) ==
            if Feeds(r) !! Touched(m1, m2) || DiffSetting(m2, kind, r).None? then Reg(regs, r)
            else DiffSetting(m2, kind, r)
  {
    SharedSetting(m2, kind, r);
    assert Feeds(r) !! Touched(m1, m2) <==> Feeds(r) !! HandledTouched(m1, m2);
  }

  /** The differential update stands in for the full one on a shared register, in any controller mode and from any
      registers, exactly in these cases: where the full update writes, a field that feeds the register is added or
      modified, or the register already holds the value; where it does not, no feeding field is touched, or its update
      function does not write either, or the register already holds what it writes. */
  lemma DifferentialRefinesFull(m1: Motor, m2: Motor, kind: TalonKind, regs: Registers, r: Register)
    requires Shared(r)
    ensures UpdatesAgree(m1, m2, kind, regs, r) <==>
            if FullSetting(m2, kind, r).Some? then
              !(Feeds(r) !! Touched(m1, m2)) || Reg(regs, r) == FullSetting(m2, kind, r)
            else
              || Feeds(r) !! Touched(m1, m2) || DiffSetting(m2, kind, r).None?
              || Reg(regs, r) == DiffSetting(m2, kind, r)
  {
    DiffRegister(m1, m2, kind, regs, r);
    SharedSetting(m2, kind, r);
  }

  lemma OnlyRemoteFilterAppears(m1: Motor, m2: Motor, kind: TalonKind, r: Register)
    requires IsMaster(m1) && IsMaster(m2) && FullSetting(m1, kind, r).None? && FullSetting(m2, kind, r).Some?
    ensures r == RemoteFilter && FeedbackSensorCanId in Touched(m1, m2)
  {
  }

  /** For masters whose old message is in the controller: the two differ exactly when the full update would change the
      register although no field that feeds it is added or modified. */
  lemma SyncedMastersAgreeIff(m1: Motor, m2: Motor, kind: TalonKind, regs: Registers, r: Register)
    requires IsMaster(m1) && IsMaster(m2) && SharedInSync(m1, kind, regs) && Shared(r)
    ensures UpdatesAgree(m1, m2, kind, regs, r)
            <==> || !(Feeds(r) !! Touched(m1, m2))
                 || FullSetting(m2, kind, r).None?
                 || FullSetting(m2, kind, r) == FullSetting(m1, kind, r)
  {
    DifferentialRefinesFull(m1, m2, kind, regs, r);
    SharedSetting(m2, kind, r);
    if FullSetting(m1, kind, r).None? && FullSetting(m2, kind, r).Some? {
      OnlyRemoteFilterAppears(m1, m2, kind, r);
    }
  }

  /** A register that only masters get is not written for a slave by the full update; the update functions do not ask
      for the mode, so the two agree exactly when no feeding field is touched or nothing changes by writing it. */
  lemma SlaveGetsMasterSettings(m1: Motor, m2: Motor, kind: TalonKind, regs: Registers, r: Register)
    requires !IsMaster(m2) && Shared(r) && MasterOnly(r)
    ensures Reg(FullRegisters(m2, kind, regs), r) == Reg(regs, r)
    ensures UpdatesAgree(m1, m2, kind, regs, r)
            <==> || Feeds(r) !! Touched(m1, m2) || DiffSetting(m2, kind, r).None?
                 || Reg(regs, r) == DiffSetting(m2, kind, r)
  {
    DifferentialRefinesFull(m1, m2, kind, regs, r);
  }

  /** A slave that becomes a master keeps whatever its controller holds for a gain that the message repeats; the full
      update would write the gain. */
  lemma PromotedSlaveKeepsStaleGain(kind: TalonKind, regs: Registers, mode: real, gain: real)
    requires mode != SLAVE
    ensures var m1 := Motor(1, map[Top(ControllerMode) := SLAVE, Top(Kp) := gain]);
            var m2 := Motor(1, map[Top(ControllerMode) := mode, Top(Kp) := gain]);
            && Reg(DiffRegisters(HandledTouched(m1, m2), m2, kind, regs), Direct(Kp)) == Reg(regs, Direct(Kp))
            && Reg(FullRegisters(m2, kind, regs), Direct(Kp)) == Some(Number(gain))
  {
    var m1 := Motor(1, map[Top(ControllerMode) := SLAVE, Top(Kp) := gain]);
    var m2 := Motor(1, map[Top(ControllerMode) := mode, Top(Kp) := gain]);
    assert m2.Get(Kp) == gain && Kp !in Touched(m1, m2);
    DiffRegister(m1, m2, kind, regs, Direct(Kp));
    assert FullSetting(m2, kind, Direct(Kp)) == Some(Number(gain));
  }

  /** No field of the motor that the old message has is missing from the new one; values inside a limit that stays may
      come and go. */
  ghost predicate NothingDisappears(m1: Motor, m2: Motor) {
    forall f: Field :: Top(f) in m1.values ==> Top(f) in m2.values
  }

  lemma UntouchedSetting(m1: Motor, m2: Motor, kind: TalonKind, r: Register)
    requires NothingDisappears(m1, m2) && Feeds(r) !! Touched(m1, m2)
    ensures DiffSetting(m1, kind, r) == DiffSetting(m2, kind, r)
  {
  }

  /** As long as no field disappears, a differential update of a master is a full update on every
      shared register, whatever the reporting order. */
  lemma NothingLostWithoutDeletions(m1: Motor, m2: Motor, kind: TalonKind, regs: Registers, r: Register)
    requires IsMaster(m1) && IsMaster(m2) && SharedInSync(m1, kind, regs) && Shared(r) && NothingDisappears(m1, m2)
    ensures UpdatesAgree(m1, m2, kind, regs, r)
  {
    SyncedMastersAgreeIff(m1, m2, kind, regs, r);
    if Feeds(r) !! Touched(m1, m2) && FullSetting(m2, kind, r).Some? {
      UntouchedSetting(m1, m2, kind, r);
      SharedSetting(m1, kind, r);
      SharedSetting(m2, kind, r);
      if FullSetting(m1, kind, r).None? {
        OnlyRemoteFilterAppears(m1, m2, kind, r);
      }
    }
  }

  /** The register of a current limit and the field that feeds it. */
  predicate LimitRegister(kind: TalonKind, r: Register, f: Field) {
    || (r == SupplyLimit && f == SupplyCurrentLimitConfig)
    || (r == StatorLimit && f == StatorCurrentLimitConfig && kind == TalonFX)
  }

  lemma LimitSettings(m: Motor, kind: TalonKind, r: Register, f: Field)
    requires LimitRegister(kind, r, f)
    ensures FullSetting(m, kind, r) == Some(LimitSetting(m, f)) && Shared(r) && Feeds(r) == {f}
  {
  }

  lemma UntouchedLimit(m1: Motor, m2: Motor, f: Field)
    requires CurrentLimitField(f) && f !in Touched(m1, m2) && Top(f) in m2.values
    ensures LimitSetting(m1, f) == LimitSetting(m2, f)
  {
    assert forall sub: LimitField :: m1.Inner(f, sub) == m2.Inner(f, sub);
  }

  /** Values inside a limit may disappear as long as the limit itself stays, because the limit is then reported as
      modified: only a limit that disappears as a whole keeps its old values, in any controller mode. */
  lemma LimitsAgreeIff(m1: Motor, m2: Motor, kind: TalonKind, regs: Registers, r: Register, f: Field)
    requires LimitRegister(kind, r, f) && SharedInSync(m1, kind, regs)
    ensures UpdatesAgree(m1, m2, kind, regs, r)
            <==> Top(f) in m2.values || LimitSetting(m1, f) == LimitSetting(m2, f)
  {
    LimitSettings(m1, kind, r, f);
    LimitSettings(m2, kind, r, f);
    DifferentialRefinesFull(m1, m2, kind, regs, r);
    assert Feeds(r) !! Touched(m1, m2) <==> f !in Touched(m1, m2);
    if f !in Touched(m1, m2) && Top(f) in m2.values {
      UntouchedLimit(m1, m2, f);
    }
  }

  /** The failing family: a gain set back to its default disappears from the message and stays in the controller. */
  lemma DeletedGainStays(kind: TalonKind, regs: Registers, mode: real, gain: real)
    requires mode != SLAVE && gain != 0.0
    requires InSync(Motor(1, map[Top(ControllerMode) := mode, Top(Kp) := gain]), kind, regs)
    ensures var m1 := Motor(1, map[Top(ControllerMode) := mode, Top(Kp) := gain]);
            var m2 := Motor(1, map[Top(ControllerMode) := mode]);
            && Reg(DiffRegisters(HandledTouched(m1, m2), m2, kind, regs), Direct(Kp)) == Some(Number(gain))
            && Reg(FullRegisters(m2, kind, regs), Direct(Kp)) == Some(Number(0.0))
  {
    var m1 := Motor(1, map[Top(ControllerMode) := mode, Top(Kp) := gain]);
    var m2 := Motor(1, map[Top(ControllerMode) := mode]);
    assert Touched(m1, m2) == {};
    DiffRegister(m1, m2, kind, regs, Direct(Kp));
    assert FullSetting(m1, kind, Direct(Kp)) == Some(Number(gain));
  }

  /** The closed-loop peak is clamped by the full update only, and for a master only. */
  lemma PeakClosedLoopDiffers(m1: Motor, m2: Motor, kind: TalonKind, regs: Registers)
    ensures UpdatesAgree(m1, m2, kind, regs, PeakClosedLoop) <==>
            if MaxClosedLoopPeakOutput in Touched(m1, m2) then
              if IsMaster(m2) then m2.Get(MaxClosedLoopPeakOutput) >= 0.01
              else Reg(regs, PeakClosedLoop) == Some(Number(m2.Get(MaxClosedLoopPeakOutput)))
            else IsMaster(m2) ==> Reg(regs, PeakClosedLoop) == Some(PeakClosedLoopSetting(m2))
  {
    var r := PeakClosedLoop;
    assert FullSetting(m2, kind, r) == if IsMaster(m2) then Some(PeakClosedLoopSetting(m2)) else None;
    assert Feeds(r) !! HandledTouched(m1, m2) <==> MaxClosedLoopPeakOutput !in Touched(m1, m2);
  }

  /** No update function follows the controller mode, so frame periods go stale exactly when FAST_MASTER is entered
      or left, and only the two frames whose period it changes. */
  lemma FramePeriodsDiffer(m1: Motor, m2: Motor, kind: TalonKind, regs: Registers, frame: Frame)
    requires InSync(m1, kind, regs)
    ensures UpdatesAgree(m1, m2, kind, regs, FramePeriod(frame))
            <==> || frame == Status2Feedback0 || frame == Status4AinTempVbat
                 || (m1.Get(ControllerMode) == FAST_MASTER <==> m2.Get(ControllerMode) == FAST_MASTER)
  {
    var r := FramePeriod(frame);
    assert TouchedSetting(HandledTouched(m1, m2), m2, kind, r).None?;
    assert Reg(regs, r) == FullSetting(m1, kind, r) == Some(Milliseconds(FramePeriodMs(m1, frame)));
    assert Reg(FullRegisters(m2, kind, regs), r) == Some(Milliseconds(FramePeriodMs(m2, frame)));
  }

  /** A field that has no device call of its own in the full update has none here either, but for the coefficient and
      the phase of the sensor. */
  lemma FieldsWithoutRegister(m1: Motor, m2: Motor, kind: TalonKind, regs: Registers, f: Field)
    requires !ForEveryMotor(f) && !ForMasters(f) && f != FeedbackSensorCoefficient && f != SensorPhaseInverted
    ensures Reg(DiffRegisters(HandledTouched(m1, m2), m2, kind, regs), Direct(f)) == Reg(regs, Direct(f))
  {
    StageOfField(f);
    FieldsOfBoth(f);
  }

  /** The sensor coefficient and phase are written by the differential path alone. */
  lemma DifferentialOnlyRegisters(m1: Motor, m2: Motor, kind: TalonKind, regs: Registers, f: Field)
    requires f == FeedbackSensorCoefficient || f == SensorPhaseInverted
    ensures Reg(FullRegisters(m2, kind, regs), Direct(f)) == Reg(regs, Direct(f))
    ensures Reg(DiffRegisters(HandledTouched(m1, m2), m2, kind, regs), Direct(f)) ==
            if f in Touched(m1, m2) then Some(Number(m2.Get(f))) else Reg(regs, Direct(f))
  {
    var r := Direct(f);
    assert FullSetting(m2, kind, r).None?;
    assert Feeds(r) == {f} && DiffSetting(m2, kind, r) == Some(Number(m2.Get(f)));
    assert Feeds(r) !! HandledTouched(m1, m2) <==> f !in Touched(m1, m2);
  }

  // ---------------------------------------------------------------- what repeated updates keep

  /** Nothing disappears, and a slave does not become a master. */
  ghost predicate Compatible(m1: Motor, m2: Motor) {
    NothingDisappears(m1, m2) && (IsMaster(m2) ==> IsMaster(m1))
  }

  lemma FullUpdateSyncs(m: Motor, kind: TalonKind, regs: Registers)
    ensures SharedInSync(m, kind, FullRegisters(m, kind, regs))
  {
  }

  lemma StillWritten(m1: Motor, m2: Motor, kind: TalonKind, r: Register)
    requires IsMaster(m2) ==> IsMaster(m1)
    ensures DiffSetting(m1, kind, r) == DiffSetting(m2, kind, r) == FullSetting(m2, kind, r) ==>
              FullSetting(m2, kind, r).Some? ==> FullSetting(m1, kind, r).Some?
  {
  }

  lemma DifferentialKeepsSync(m1: Motor, m2: Motor, kind: TalonKind, regs: Registers)
    requires SharedInSync(m1, kind, regs) && Compatible(m1, m2)
    ensures SharedInSync(m2, kind, DiffRegisters(HandledTouched(m1, m2), m2, kind, regs))
  {
    forall r | Shared(r) && FullSetting(m2, kind, r).Some?
      ensures Reg(DiffRegisters(HandledTouched(m1, m2), m2, kind, regs), r) == FullSetting(m2, kind, r)
    {
      DiffRegister(m1, m2, kind, regs, r);
      SharedSetting(m1, kind, r);
      SharedSetting(m2, kind, r);
      if Feeds(r) !! Touched(m1, m2) {
        UntouchedSetting(m1, m2, kind, r);
        StillWritten(m1, m2, kind, r);
      }
    }
  }

  /** An unchanged message reports nothing and writes nothing. */
  lemma SameMessageWritesNothing(m: Motor, kind: TalonKind, regs: Registers)
    ensures HandledTouched(m, m) == {}
    ensures DiffRegisters(HandledTouched(m, m), m, kind, regs) == regs
  {
    NoUpdates(m, kind, regs);
  }
}
