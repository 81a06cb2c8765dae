/**
 Configuring one motor controller with a full update. A controller is the map of its configuration
 registers; every device call succeeds.
 */
module TalonConfig {
  import opened Common

  /** The fields of the motor message, in the order of their protobuf numbers. */
  datatype Field =
    | Id | ControllerType | ControllerMode
    | Kp | Ki | Kd | Kf | Izone | MaxIAccum | AllowedClosedLoopError | MaxClosedLoopPeakOutput
    | MotionCruiseVelocity | MotionAcceleration | MotionSCurveStrength
    | ForwardSoftLimit | ForwardSoftLimitEnable | ReverseSoftLimit | ReverseSoftLimitEnable
    | FeedbackSensorCoefficient | VoltageCompensationSaturation | VoltageCompensationEnabled
    | InvertType | SensorPhaseInverted | NeutralMode | OpenLoopRamp | ClosedLoopRamp
    | SupplyCurrentLimitConfig | StatorCurrentLimitConfig
    | ForwardLimitSwitchSource | ForwardLimitSwitchNormal | ReverseLimitSwitchSource | ReverseLimitSwitchNormal
    | PeakOutputForward | PeakOutputReverse | CanNetwork | FeedbackSensorCanId | ActiveGainSlot
    | Kp1 | Ki1 | Kd1 | Kf1

  datatype LimitField = Enable | CurrentLimit | TriggerThresholdCurrent | TriggerThresholdTime

  /** A place in the message that can hold a value; for a nested message `Top` records its presence. */
  datatype Leaf = Top(field: Field) | Nested(field: Field, sub: LimitField)

  /** Absent means the default 0; booleans and enumerations are numbers. A nested value counts only inside a nested
      message that is present. */
  datatype Motor = Motor(id: int, values: map<Leaf, real>) {
    function Get(f: Field): real {
      if Top(f) in values then values[Top(f)] else 0.0
    }

    function Inner(f: Field, s: LimitField): Option<real> {
      if Top(f) in values && Nested(f, s) in values then Some(values[Nested(f, s)]) else None
    }

    function GetNested(f: Field, s: LimitField): real {
      if Inner(f, s).Some? then Inner(f, s).value else 0.0
    }
  }

  /** Any two distinct numbers would do. */
  const FAST_MASTER := 0.0
  const SLAVE := 2.0

  predicate IsMaster(m: Motor) {
    m.Get(ControllerMode) != SLAVE
  }

  datatype TalonKind = TalonFX | TalonSRX

  datatype Frame = Control3General | Status1General | Status2Feedback0 | Status4AinTempVbat

  /** `Direct(f)` is the setting whose device call takes the value of field f as it is. */
  datatype Register =
    | Direct(field: Field)
    | PeakForward | PeakReverse | PeakClosedLoop
    | ForwardLimitSwitch | ReverseLimitSwitch
    | SupplyLimit | StatorLimit
    | RemoteFilter | SelectedSensor
    | FramePeriod(frame: Frame)

  datatype Setting =
    | Number(value: real)
    | Switch(source: real, normal: real)
    | Limit(enable: real, current: real, thresholdCurrent: real, thresholdTime: real)
    | CanCoder(id: int) | RemoteSensor0 | IntegratedSensor
    | Milliseconds(ms: nat)

  type Registers = map<Register, Setting>

  function Reg(regs: Registers, r: Register): Option<Setting> {
    if r in regs then Some(regs[r]) else None
  }

  // ---------------------------------------------------------------- full update

  /** The full update writes the registers in stages; a field without a device call of its own has stage 8. */
  function FieldStage(f: Field): nat {
    match f
    case VoltageCompensationSaturation | VoltageCompensationEnabled | InvertType | NeutralMode
       | OpenLoopRamp | ClosedLoopRamp => 0
    case Kp | Ki | Kd | Kf | Kp1 | Ki1 | Kd1 | Kf1 | ActiveGainSlot => 3
    case Izone | MaxIAccum | AllowedClosedLoopError
       | MotionCruiseVelocity | MotionAcceleration | MotionSCurveStrength => 4
    case ForwardSoftLimit | ForwardSoftLimitEnable | ReverseSoftLimit | ReverseSoftLimitEnable => 5
    case _ => 8
  }

  function Stage(r: Register): nat {
    match r
    case Direct(f) => FieldStage(f)
    case PeakForward | PeakReverse | ForwardLimitSwitch | ReverseLimitSwitch => 1
    case RemoteFilter | SelectedSensor => 2
    case PeakClosedLoop => 4
    case SupplyLimit | StatorLimit => 6
    case FramePeriod(_) => 7
  }

  predicate MasterOnly(r: Register) {
    2 <= Stage(r) <= 5
  }

  function PeakForwardSetting(m: Motor): Setting {
    Number(if m.Get(PeakOutputForward) < 0.04 then 1.0 else m.Get(PeakOutputForward))
  }

  function PeakReverseSetting(m: Motor): Setting {
    Number(if m.Get(PeakOutputReverse) > -0.04 then -1.0 else m.Get(PeakOutputReverse))
  }

  function PeakClosedLoopSetting(m: Motor): Setting {
    Number(if m.Get(MaxClosedLoopPeakOutput) < 0.01 then 1.0 else m.Get(MaxClosedLoopPeakOutput))
  }

  function LimitSetting(m: Motor, f: Field): Setting {
    Limit(m.GetNested(f, Enable), m.GetNested(f, CurrentLimit), m.GetNested(f, TriggerThresholdCurrent),
          m.GetNested(f, TriggerThresholdTime))
  }

  function FramePeriodMs(m: Motor, frame: Frame): nat {
    if m.Get(ControllerMode) == FAST_MASTER && (frame == Control3General || frame == Status1General) then 5 else 10
  }

  /** What the full update writes to a register, if it writes it at all. */
  function FullSetting(m: Motor, kind: TalonKind, r: Register): Option<Setting> {
    if Stage(r) == 8 || (MasterOnly(r) && !IsMaster(m)) then None
    else
      match r
      case Direct(f) => Some(Number(m.Get(f)))
      case PeakForward => Some(PeakForwardSetting(m))
      case PeakReverse => Some(PeakReverseSetting(m))
      case PeakClosedLoop => Some(PeakClosedLoopSetting(m))
      case ForwardLimitSwitch =>
        Some(Switch(m.Get(ForwardLimitSwitchSource), m.Get(ForwardLimitSwitchNormal)))
      case ReverseLimitSwitch =>
        Some(Switch(m.Get(ReverseLimitSwitchSource), m.Get(ReverseLimitSwitchNormal)))
      case SupplyLimit => Some(LimitSetting(m, SupplyCurrentLimitConfig))
      case StatorLimit => if kind == TalonFX then Some(LimitSetting(m, StatorCurrentLimitConfig)) else None
      case RemoteFilter =>
        if m.Get(FeedbackSensorCanId) > 0.0 then Some(CanCoder(m.Get(FeedbackSensorCanId).Floor)) else None
      case SelectedSensor => Some(if m.Get(FeedbackSensorCanId) > 0.0 then RemoteSensor0 else IntegratedSensor)
      case FramePeriod(frame) => Some(Milliseconds(FramePeriodMs(m, frame)))
  }

  // ---------------------------------------------------------------- writing registers

  ghost const ALL_REGISTERS: set<Register> :=
    (set f: Field | true :: Direct(f)) + (set frame: Frame | true :: FramePeriod(frame)) +
    {PeakForward, PeakReverse, PeakClosedLoop, ForwardLimitSwitch, ReverseLimitSwitch, SupplyLimit, StatorLimit,
     RemoteFilter, SelectedSensor}

  lemma AllRegisters()
    ensures forall r: Register :: r in ALL_REGISTERS
  {
    forall r: Register
      ensures r in ALL_REGISTERS
    {
      match r {
        case Direct(f) =>
        case FramePeriod(frame) =>
        case _ =>
      }
    }
  }

  /** The registers after the writes `w` on top of `regs`. */
  ghost function Overlay(w: Register -> Option<Setting>, regs: Registers): (regs': Registers)
    ensures forall r :: Reg(regs', r) == if w(r).Some? then w(r) else Reg(regs, r)
  {
    AllRegisters();
    map r | r in ALL_REGISTERS && (w(r).Some? || r in regs) :: if w(r).Some? then w(r).value else regs[r]
  }

  lemma SameRegisters(a: Registers, b: Registers)
    requires forall r :: Reg(a, r) == Reg(b, r)
    ensures a == b
  {
    forall r
      ensures r in a <==> r in b
      ensures r in a ==> a[r] == b[r]
    {
      assert Reg(a, r) == Reg(b, r);
    }
  }

  ghost function FullRegisters(m: Motor, kind: TalonKind, regs: Registers): Registers {
    Overlay(r => FullSetting(m, kind, r), regs)
  }

  /** The stages from `lo` up to but not including `hi` of the full update, and nothing else. */
  ghost predicate Updated(m: Motor, kind: TalonKind, lo: nat, hi: nat, regs: Registers, regs': Registers) {
    forall r :: Reg(regs', r) ==
      if lo <= Stage(r) < hi && FullSetting(m, kind, r).Some? then FullSetting(m, kind, r) else Reg(regs, r)
  }

  lemma UpdatedThen(m: Motor, kind: TalonKind, lo: nat, mid: nat, hi: nat, a: Registers, b: Registers, c: Registers)
    requires lo <= mid <= hi && Updated(m, kind, lo, mid, a, b) && Updated(m, kind, mid, hi, b, c)
    ensures Updated(m, kind, lo, hi, a, c)
  {
  }

  /** The device calls that take the values of the fields `fs` as they are. */
  ghost predicate DirectlySet(m: Motor, fs: set<Field>, regs: Registers, regs': Registers) {
    forall r ::
      Reg(regs', r) == if r.Direct? && r.field in fs then Some(Number(m.Get(r.field))) else Reg(regs, r)
  }

  lemma DirectlySetThen(m: Motor, fs: set<Field>, gs: set<Field>, a: Registers, b: Registers, c: Registers)
    requires DirectlySet(m, fs, a, b) && DirectlySet(m, gs, b, c)
    ensures DirectlySet(m, fs + gs, a, c)
  {
  }

  lemma DirectlySetStage(m: Motor, kind: TalonKind, fs: set<Field>, stage: nat, a: Registers, b: Registers)
    requires DirectlySet(m, fs, a, b)
    requires stage in {0, 3, 5} && (stage > 0 ==> IsMaster(m))
    requires forall f :: f in fs <==> FieldStage(f) == stage
    ensures Updated(m, kind, stage, stage + 1, a, b)
  {
  }

  method ConfigCommon(m: Motor, before: Registers) returns (regs: Registers)
    ensures DirectlySet(m, {VoltageCompensationSaturation, VoltageCompensationEnabled, InvertType, NeutralMode,
                            OpenLoopRamp, ClosedLoopRamp}, before, regs)
  {
    regs := before;
    regs := regs[Direct(VoltageCompensationSaturation) := Number(m.Get(VoltageCompensationSaturation))];
    regs := regs[Direct(VoltageCompensationEnabled) := Number(m.Get(VoltageCompensationEnabled))];
    regs := regs[Direct(InvertType) := Number(m.Get(InvertType))];
    regs := regs[Direct(NeutralMode) := Number(m.Get(NeutralMode))];
    regs := regs[Direct(OpenLoopRamp) := Number(m.Get(OpenLoopRamp))];
    regs := regs[Direct(ClosedLoopRamp) := Number(m.Get(ClosedLoopRamp))];
  }

  lemma CommonStage(m: Motor, kind: TalonKind, a: Registers, b: Registers)
    requires DirectlySet(m, {VoltageCompensationSaturation, VoltageCompensationEnabled, InvertType, NeutralMode,
                             OpenLoopRamp, ClosedLoopRamp}, a, b)
    ensures Updated(m, kind, 0, 1, a, b)
  {
  }

  method ConfigOutputLimits(m: Motor, kind: TalonKind, before: Registers) returns (regs: Registers)
    ensures Updated(m, kind, 1, 2, before, regs)
  {
    regs := before;
    regs := regs[PeakForward := Number(if m.Get(PeakOutputForward) < 0.04 then 1.0 else m.Get(PeakOutputForward))];
    regs := regs[PeakReverse := Number(if m.Get(PeakOutputReverse) > -0.04 then -1.0 else m.Get(PeakOutputReverse))];
    regs := regs[ForwardLimitSwitch := Switch(m.Get(ForwardLimitSwitchSource), m.Get(ForwardLimitSwitchNormal))];
    regs := regs[ReverseLimitSwitch := Switch(m.Get(ReverseLimitSwitchSource), m.Get(ReverseLimitSwitchNormal))];
  }

  method ConfigFeedback(m: Motor, kind: TalonKind, before: Registers) returns (regs: Registers)
    requires IsMaster(m)
    ensures Updated(m, kind, 2, 3, before, regs)
  {
    regs := before;
    if m.Get(FeedbackSensorCanId) > 0.0 {
      regs := regs[RemoteFilter := CanCoder(m.Get(FeedbackSensorCanId).Floor)];
      regs := regs[SelectedSensor := RemoteSensor0];
    } else {
      regs := regs[SelectedSensor := IntegratedSensor];
    }
  }

  method ConfigSlot0(m: Motor, before: Registers) returns (regs: Registers)
    ensures DirectlySet(m, {Kp, Ki, Kd, Kf}, before, regs)
  {
    regs := before;
    regs := regs[Direct(Kp) := Number(m.Get(Kp))];
    regs := regs[Direct(Ki) := Number(m.Get(Ki))];
    regs := regs[Direct(Kd) := Number(m.Get(Kd))];
    regs := regs[Direct(Kf) := Number(m.Get(Kf))];
  }

  method ConfigSlot1(m: Motor, before: Registers) returns (regs: Registers)
    ensures DirectlySet(m, {Kp1, Ki1, Kd1, Kf1, ActiveGainSlot}, before, regs)
  {
    regs := before;
    regs := regs[Direct(Kp1) := Number(m.Get(Kp1))];
    regs := regs[Direct(Ki1) := Number(m.Get(Ki1))];
    regs := regs[Direct(Kd1) := Number(m.Get(Kd1))];
    regs := regs[Direct(Kf1) := Number(m.Get(Kf1))];
    regs := regs[Direct(ActiveGainSlot) := Number(m.Get(ActiveGainSlot))];
  }

  method ConfigClosedLoop(m: Motor, before: Registers) returns (regs: Registers)
    ensures DirectlySet(m, {Izone, MaxIAccum, AllowedClosedLoopError, MotionCruiseVelocity, MotionAcceleration,
                            MotionSCurveStrength}, before, regs)
  {
    regs := before;
    regs := regs[Direct(Izone) := Number(m.Get(Izone))];
    regs := regs[Direct(MaxIAccum) := Number(m.Get(MaxIAccum))];
    regs := regs[Direct(AllowedClosedLoopError) := Number(m.Get(AllowedClosedLoopError))];
    regs := regs[Direct(MotionCruiseVelocity) := Number(m.Get(MotionCruiseVelocity))];
    regs := regs[Direct(MotionAcceleration) := Number(m.Get(MotionAcceleration))];
    regs := regs[Direct(MotionSCurveStrength) := Number(m.Get(MotionSCurveStrength))];
  }

  lemma ClosedLoopStage(m: Motor, kind: TalonKind, a: Registers, b: Registers)
    requires IsMaster(m)
    requires DirectlySet(m, {Izone, MaxIAccum, AllowedClosedLoopError, MotionCruiseVelocity, MotionAcceleration,
                             MotionSCurveStrength}, a, b)
    ensures Updated(m, kind, 4, 5, a, b[PeakClosedLoop := PeakClosedLoopSetting(m)])
  {
  }

  method ConfigSoftLimits(m: Motor, before: Registers) returns (regs: Registers)
    ensures DirectlySet(m, {ForwardSoftLimit, ForwardSoftLimitEnable, ReverseSoftLimit, ReverseSoftLimitEnable},
                        before, regs)
  {
    regs := before;
    regs := regs[Direct(ForwardSoftLimit) := Number(m.Get(ForwardSoftLimit))];
    regs := regs[Direct(ForwardSoftLimitEnable) := Number(m.Get(ForwardSoftLimitEnable))];
    regs := regs[Direct(ReverseSoftLimit) := Number(m.Get(ReverseSoftLimit))];
    regs := regs[Direct(ReverseSoftLimitEnable) := Number(m.Get(ReverseSoftLimitEnable))];
  }

  lemma GainsStage(m: Motor, kind: TalonKind, a: Registers, b: Registers, c: Registers)
    requires IsMaster(m)
    requires DirectlySet(m, {Kp, Ki, Kd, Kf}, a, b) && DirectlySet(m, {Kp1, Ki1, Kd1, Kf1, ActiveGainSlot}, b, c)
    ensures Updated(m, kind, 3, 4, a, c)
  {
    DirectlySetThen(m, {Kp, Ki, Kd, Kf}, {Kp1, Ki1, Kd1, Kf1, ActiveGainSlot}, a, b, c);
    DirectlySetStage(m, kind, {Kp, Ki, Kd, Kf} + {Kp1, Ki1, Kd1, Kf1, ActiveGainSlot}, 3, a, c);
  }

  lemma SoftLimitsStage(m: Motor, kind: TalonKind, a: Registers, b: Registers)
    requires IsMaster(m)
    requires DirectlySet(m, {ForwardSoftLimit, ForwardSoftLimitEnable, ReverseSoftLimit, ReverseSoftLimitEnable}, a, b)
    ensures Updated(m, kind, 5, 6, a, b)
  {
  }

  /** The device calls only a master gets. */
  method ConfigMaster(m: Motor, kind: TalonKind, before: Registers) returns (regs: Registers)
    requires IsMaster(m)
    ensures Updated(m, kind, 2, 6, before, regs)
  {
    var feedback := ConfigFeedback(m, kind, before);
    var slot0 := ConfigSlot0(m, feedback);
    var slot1 := ConfigSlot1(m, slot0);
    GainsStage(m, kind, feedback, slot0, slot1);
    var loop := ConfigClosedLoop(m, slot1);
    ClosedLoopStage(m, kind, slot1, loop);
    loop := loop[PeakClosedLoop :=
      Number(if m.Get(MaxClosedLoopPeakOutput) < 0.01 then 1.0 else m.Get(MaxClosedLoopPeakOutput))];
    regs := ConfigSoftLimits(m, loop);
    SoftLimitsStage(m, kind, loop, regs);
    UpdatedThen(m, kind, 2, 3, 4, before, feedback, slot1);
    UpdatedThen(m, kind, 2, 4, 5, before, slot1, loop);
    UpdatedThen(m, kind, 2, 5, 6, before, loop, regs);
  }

  method ConfigCurrentLimits(m: Motor, kind: TalonKind, before: Registers) returns (regs: Registers)
    ensures Updated(m, kind, 6, 7, before, regs)
  {
    regs := before[SupplyLimit := LimitSetting(m, SupplyCurrentLimitConfig)];
    match kind {
      case TalonFX => regs := regs[StatorLimit := LimitSetting(m, StatorCurrentLimitConfig)];
      case TalonSRX =>
    }
  }

  lemma FramePeriodStage(m: Motor, kind: TalonKind, a: Registers, b: Registers)
    requires forall r: Register | !r.FramePeriod? :: Reg(b, r) == Reg(a, r)
    requires Reg(b, FramePeriod(Control3General)) == Some(Milliseconds(FramePeriodMs(m, Control3General)))
    requires Reg(b, FramePeriod(Status1General)) == Some(Milliseconds(FramePeriodMs(m, Status1General)))
    requires Reg(b, FramePeriod(Status2Feedback0)) == Some(Milliseconds(FramePeriodMs(m, Status2Feedback0)))
    requires Reg(b, FramePeriod(Status4AinTempVbat)) == Some(Milliseconds(FramePeriodMs(m, Status4AinTempVbat)))
    ensures Updated(m, kind, 7, 8, a, b)
  {
    forall r: Register | r.FramePeriod?
      ensures Reg(b, r) == Some(Milliseconds(FramePeriodMs(m, r.frame)))
    {
      match r.frame {
        case Control3General =>
        case Status1General =>
        case Status2Feedback0 =>
        case Status4AinTempVbat =>
      }
    }
  }

  /** The control and status frame periods of the controller mode; MASTER and SLAVE have the same table. */
  method ConfigFramePeriods(m: Motor, kind: TalonKind, before: Registers) returns (regs: Registers)
    ensures Updated(m, kind, 7, 8, before, regs)
  {
    var general := if m.Get(ControllerMode) == FAST_MASTER then 5 else 10;
    regs := before;
    regs := regs[FramePeriod(Control3General) := Milliseconds(general)];
    regs := regs[FramePeriod(Status1General) := Milliseconds(general)];
    regs := regs[FramePeriod(Status2Feedback0) := Milliseconds(10)];
    regs := regs[FramePeriod(Status4AinTempVbat) := Milliseconds(10)];
    FramePeriodStage(m, kind, before, regs);
  }

  lemma LastStage(m: Motor, kind: TalonKind, r: Register)
    ensures Stage(r) <= 8 && (Stage(r) == 8 ==> FullSetting(m, kind, r).None?)
  {
  }

  lemma AllStages(m: Motor, kind: TalonKind, regs: Registers, regs': Registers)
    requires Updated(m, kind, 0, 8, regs, regs')
    ensures regs' == FullRegisters(m, kind, regs)
  {
    forall r
      ensures Reg(regs', r) == Reg(FullRegisters(m, kind, regs), r)
    {
      LastStage(m, kind, r);
    }
    SameRegisters(regs', FullRegisters(m, kind, regs));
  }

  method FullUpdate(m: Motor, kind: TalonKind, before: Registers) returns (regs: Registers)
    ensures regs == FullRegisters(m, kind, before)
  {
    var common := ConfigCommon(m, before);
    CommonStage(m, kind, before, common);
    var outputs := ConfigOutputLimits(m, kind, common);
    UpdatedThen(m, kind, 0, 1, 2, before, common, outputs);
    var master := outputs;
    if m.Get(ControllerMode) != SLAVE {
      master := ConfigMaster(m, kind, outputs);
    }
    UpdatedThen(m, kind, 0, 2, 6, before, outputs, master);
    var limits := ConfigCurrentLimits(m, kind, master);
    UpdatedThen(m, kind, 0, 6, 7, before, master, limits);
    regs := ConfigFramePeriods(m, kind, limits);
    UpdatedThen(m, kind, 0, 7, 8, before, limits, regs);
    AllStages(m, kind, before, regs);
  }

  // ---------------------------------------------------------------- what a full update leaves in the registers

  predicate ForEveryMotor(f: Field) {
    || f.VoltageCompensationSaturation? || f.VoltageCompensationEnabled? || f.InvertType? || f.NeutralMode?
    || f.OpenLoopRamp? || f.ClosedLoopRamp?
  }

  predicate ForMasters(f: Field) {
    || f.Kp? || f.Ki? || f.Kd? || f.Kf? || f.Kp1? || f.Ki1? || f.Kd1? || f.Kf1? || f.ActiveGainSlot?
    || f.Izone? || f.MaxIAccum? || f.AllowedClosedLoopError?
    || f.MotionCruiseVelocity? || f.MotionAcceleration? || f.MotionSCurveStrength?
    || f.ForwardSoftLimit? || f.ForwardSoftLimitEnable? || f.ReverseSoftLimit? || f.ReverseSoftLimitEnable?
  }

  lemma StageOfField(f: Field)
    ensures ForEveryMotor(f) <==> FieldStage(f) == 0
    ensures ForMasters(f) <==> 3 <= FieldStage(f) <= 5
    ensures FieldStage(f) == 0 || 3 <= FieldStage(f) <= 5 || FieldStage(f) == 8
  {
  }

  /** Six fields are written for every motor, nineteen for masters only, and the others have no register of their
      own. */
  lemma PlainFields(m: Motor, kind: TalonKind, regs: Registers, f: Field)
    ensures Reg(FullRegisters(m, kind, regs), Direct(f)) ==
            if ForEveryMotor(f) || (ForMasters(f) && m.Get(ControllerMode) != SLAVE) then Some(Number(m.Get(f)))
            else Reg(regs, Direct(f))
  {
    StageOfField(f);
  }

  /** Outputs that are too small to be meant become full output; the closed-loop peak is a master's. */
  lemma PeakOutputs(m: Motor, kind: TalonKind, regs: Registers)
    ensures var after := FullRegisters(m, kind, regs);
            var f, r, c := m.Get(PeakOutputForward), m.Get(PeakOutputReverse), m.Get(MaxClosedLoopPeakOutput);
            && Reg(after, PeakForward) == Some(Number(if f < 0.04 then 1.0 else f))
            && Reg(after, PeakReverse) == Some(Number(if r > -0.04 then -1.0 else r))
            && Reg(after, PeakClosedLoop) ==
               if m.Get(ControllerMode) == SLAVE then Reg(regs, PeakClosedLoop)
               else Some(Number(if c < 0.01 then 1.0 else c))
  {
  }

  lemma LimitSwitches(m: Motor, kind: TalonKind, regs: Registers)
    ensures var after := FullRegisters(m, kind, regs);
            && Reg(after, ForwardLimitSwitch) ==
               Some(Switch(m.Get(ForwardLimitSwitchSource), m.Get(ForwardLimitSwitchNormal)))
            && Reg(after, ReverseLimitSwitch) ==
               Some(Switch(m.Get(ReverseLimitSwitchSource), m.Get(ReverseLimitSwitchNormal)))
  {
  }

  /** A limit is the four values inside the field, each in its place. */
  predicate IsLimit(s: Option<Setting>, m: Motor, f: Field) {
    && s.Some? && s.value.Limit?
    && s.value.enable == m.GetNested(f, Enable)
    && s.value.current == m.GetNested(f, CurrentLimit)
    && s.value.thresholdCurrent == m.GetNested(f, TriggerThresholdCurrent)
    && s.value.thresholdTime == m.GetNested(f, TriggerThresholdTime)
  }

  /** Every motor has a supply limit, and a Falcon a stator limit too. */
  lemma CurrentLimits(m: Motor, kind: TalonKind, regs: Registers)
    ensures IsLimit(Reg(FullRegisters(m, kind, regs), SupplyLimit), m, SupplyCurrentLimitConfig)
    ensures if kind == TalonFX then IsLimit(Reg(FullRegisters(m, kind, regs), StatorLimit), m, StatorCurrentLimitConfig)
            else Reg(FullRegisters(m, kind, regs), StatorLimit) == Reg(regs, StatorLimit)
  {
  }

  /** A master listens to the CANcoder that is named, or to its own sensor; a slave's sensor is left alone. */
  lemma FeedbackSensor(m: Motor, kind: TalonKind, regs: Registers)
    ensures var after, id := FullRegisters(m, kind, regs), m.Get(FeedbackSensorCanId);
            if m.Get(ControllerMode) == SLAVE then
              && Reg(after, SelectedSensor) == Reg(regs, SelectedSensor)
              && Reg(after, RemoteFilter) == Reg(regs, RemoteFilter)
            else if id > 0.0 then
              && Reg(after, SelectedSensor) == Some(RemoteSensor0)
              && Reg(after, RemoteFilter) == Some(CanCoder(id.Floor))
            else
              && Reg(after, SelectedSensor) == Some(IntegratedSensor)
              && Reg(after, RemoteFilter) == Reg(regs, RemoteFilter)
  {
  }

  /** A fast master gets the two general frames every 5 ms; all other frames come every 10 ms. */
  lemma FramePeriods(m: Motor, kind: TalonKind, regs: Registers, frame: Frame)
    ensures var fast := m.Get(ControllerMode) == FAST_MASTER && (frame.Control3General? || frame.Status1General?);
            Reg(FullRegisters(m, kind, regs), FramePeriod(frame)) == Some(Milliseconds(if fast then 5 else 10))
  {
  }
}
