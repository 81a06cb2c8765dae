/**
 The robot's main loop and its failover: mode transitions, the switch between external control and
 failover, and the swerve drivetrain that failover drives. Another thread decides whether external
 control is present, so every question may get a different answer: the answers are part of the
 environment of a loop, as are the control word, the joystick and the steering sensors.
 */
module RobotFailover {
  import opened Common
  import opened CKMath

  datatype Mode = NoMode | Disabled | Autonomous | Teleop | Test

  // ---------------------------------------------------------------- the swerve drivetrain

  /** The joystick as one call of `run` sees it: connected, with axes x, y and z past the dead zone. */
  datatype Stick = Stick(connected: bool, x: real, y: real, z: real)

  type Modules = s: seq<(real, real)> | |s| == 4 witness [(0.0, 0.0), (0.0, 0.0), (0.0, 0.0), (0.0, 0.0)]

  type Four = s: seq<real> | |s| == 4 witness [0.0, 0.0, 0.0, 0.0]

  /** Speed and angle wanted from each of the four modules; the geometry library is any function. */
  type Kinematics = (real, real, real, Four) -> Modules

  const ZERO: Four := [0.0, 0.0, 0.0, 0.0]

  const WHEEL_DIAMETER_M: real := 0.09906
  const DRIVE_GEAR_RATIO: real := 6.75
  const STEERING_GEAR_RATIO: real := 1.0

  function NativeDriveVelocity(mps: real): real {
    mps / (WHEEL_DIAMETER_M * PI) * 60.0 * DRIVE_GEAR_RATIO * 2048.0 / 600.0
  }

  function NativeSteeringAngle(degrees: real): real {
    degrees / 360.0 * STEERING_GEAR_RATIO * 4096.0
  }

  function SensorDegrees(position: real): real {
    position / 4096.0 * 360.0
  }

  /** `live` are the joystick objects that have been allocated and not deleted. */
  datatype Swerve = Swerve(joystick: Option<nat>, live: set<nat>, nextJoystick: nat, drive: Four, steering: Four,
                           angles: Four)

  /** What the steering motors report; None for a motor that is not registered. */
  type Sensors = s: seq<Option<real>> | |s| == 4 witness [None, None, None, None]

  function Positions(sensors: Sensors): Four {
    seq(4, i requires 0 <= i < 4 => if sensors[i].Some? then sensors[i].value else 0.0)
  }

  function Degrees(positions: Four): Four {
    seq(4, i requires 0 <= i < 4 => SensorDegrees(positions[i]))
  }

  function InitSwerve(s: Swerve, sensors: Sensors): Swerve {
    Swerve(Some(s.nextJoystick), s.live + {s.nextJoystick}, s.nextJoystick + 1, s.drive, Positions(sensors),
           Degrees(Positions(sensors)))
  }

  function UninitSwerve(s: Swerve): Swerve {
    s.(joystick := None, live := if s.joystick.Some? then s.live - {s.joystick.value} else s.live, drive := ZERO)
  }

  function PollSwerve(s: Swerve, sensors: Sensors): Swerve {
    s.(angles := seq(4, i requires 0 <= i < 4 =>
      if sensors[i].Some? then SensorDegrees(sensors[i].value) else s.angles[i]))
  }

  function Wanted(kin: Kinematics, stick: Stick, angles: Four): Modules {
    kin(4.0 * -stick.y, 4.0 * -stick.x, 8.0 * -stick.z, angles)
  }

  function RunSwerve(s: Swerve, stick: Stick, kin: Kinematics): Swerve {
    if s.joystick.Some? && stick.connected then
      var w := Wanted(kin, stick, s.angles);
      s.(drive := seq(4, i requires 0 <= i < 4 => NativeDriveVelocity(w[i].0)),
         steering := seq(4, i requires 0 <= i < 4 => NativeSteeringAngle(w[i].1)))
    else s.(drive := ZERO)
  }

  class SwerveDrivetrainFailover {
    var joystick: Option<nat>
    var drive: Four
    var steering: Four
    var angles: Four
    ghost var live: set<nat>
    var nextJoystick: nat

    ghost function Value(): Swerve
      reads this
    {
      Swerve(joystick, live, nextJoystick, drive, steering, angles)
    }

    constructor ()
      ensures Value() == Swerve(None, {}, 0, ZERO, ZERO, ZERO)
    {
      joystick, live, nextJoystick := None, {}, 0;
      drive, steering, angles := ZERO, ZERO, ZERO;
    }

    method Init(sensors: Sensors)
      modifies this
      ensures Value() == InitSwerve(old(Value()), sensors)
    {
      joystick := Some(nextJoystick);
      live := live + {nextJoystick};
      nextJoystick := nextJoystick + 1;
      var current: Four := ZERO;
      for i := 0 to 4
        invariant forall j | 0 <= j < 4 :: current[j] == if j < i then Positions(sensors)[j] else 0.0
      {
        if sensors[i].Some? {
          current := current[i := sensors[i].value];
        }
      }
      assert current == Positions(sensors);
      steering := current;
      angles := [SensorDegrees(current[0]), SensorDegrees(current[1]), SensorDegrees(current[2]),
                 SensorDegrees(current[3])];
      assert angles == Degrees(current);
    }

    /** A joystick that is deleted must be alive, or it would be freed twice. */
    method Uninit()
      requires joystick.Some? ==> joystick.value in live
      modifies this
      ensures Value() == UninitSwerve(old(Value()))
    {
      if joystick.Some? {
        live := live - {joystick.value};
        joystick := None;
      }
      drive := ZERO;
    }

    method Periodic(sensors: Sensors)
      modifies `angles
      ensures Value() == PollSwerve(old(Value()), sensors)
    {
      for i := 0 to 4
        invariant forall j | 0 <= j < 4 ::
                    angles[j] == if j < i then PollSwerve(old(Value()), sensors).angles[j] else old(angles)[j]
      {
        if sensors[i].Some? {
          angles := angles[i := SensorDegrees(sensors[i].value)];
        }
      }
      assert angles == PollSwerve(old(Value()), sensors).angles;
    }

    method Run(stick: Stick, kin: Kinematics)
      modifies `drive, `steering
      ensures Value() == RunSwerve(old(Value()), stick, kin)
    {
      if joystick.Some? && stick.connected {
        var w := Wanted(kin, stick, angles);
        drive := [NativeDriveVelocity(w[0].0), NativeDriveVelocity(w[1].0), NativeDriveVelocity(w[2].0),
                  NativeDriveVelocity(w[3].0)];
        steering := [NativeSteeringAngle(w[0].1), NativeSteeringAngle(w[1].1), NativeSteeringAngle(w[2].1),
                     NativeSteeringAngle(w[3].1)];
        assert drive == RunSwerve(old(Value()), stick, kin).drive;
        assert steering == RunSwerve(old(Value()), stick, kin).steering;
      } else {
        drive := ZERO;
      }
    }
  }

  // ---------------------------------------------------------------- the robot

  /** The observable steps of the loop; a Periodic carries the control mode that is published while it runs. */
  datatype Effect =
    | Exit(mode: Mode)
    | Init(mode: Mode)
    | Periodic(mode: Mode, published: Mode)
    | RobotPeriodic
    | FailoverInit
    | FailoverReset
    | FailoverPeriodic

  /** One loop's environment: the control word's mode, the answers to `isExternalControl` in the mode's Init, in its
      Periodic and in RobotPeriodic, and what the devices show. */
  datatype Env = Env(word: Mode, externalAtInit: bool, externalAtPeriodic: bool, external: bool, dsAttached: bool,
                     stick: Stick, sensors: Sensors, kin: Kinematics)

  datatype RobotState = RobotState(lastMode: Mode, controlMode: Mode, failoverActive: bool,
                                   initialStartupROSCompleted: bool, swerve: Swerve, trace: seq<Effect>)

  const START := RobotState(NoMode, Disabled, false, false, Swerve(None, {}, 0, ZERO, ZERO, ZERO), [])

  function Entered(s: RobotState, mode: Mode): RobotState {
    if s.lastMode == mode then s
    else
      s.(lastMode := mode,
         controlMode := if mode == NoMode then s.controlMode else mode,
         trace := s.trace + (if s.lastMode == NoMode then [] else [Exit(s.lastMode)])
                  + if mode == NoMode then [] else [Init(mode)])
  }

  function RanPeriodic(s: RobotState, env: Env): RobotState {
    if env.word == NoMode then s
    else
      s.(swerve := if env.word == Teleop && !env.externalAtPeriodic then RunSwerve(s.swerve, env.stick, env.kin)
                   else s.swerve,
         trace := s.trace + [Periodic(env.word, s.controlMode)])
  }

  function SwitchedOver(s: RobotState, env: Env): RobotState {
    if env.external then
      if s.failoverActive then
        s.(swerve := UninitSwerve(s.swerve), failoverActive := false, trace := s.trace + [FailoverReset])
      else
        s.(initialStartupROSCompleted := s.initialStartupROSCompleted || env.dsAttached)
    else
      var t := if s.failoverActive then s
               else s.(swerve := InitSwerve(s.swerve, env.sensors), failoverActive := true,
                       trace := s.trace + [FailoverInit]);
      t.(swerve := PollSwerve(t.swerve, env.sensors), trace := t.trace + [FailoverPeriodic])
  }

  function Looped(s: RobotState, env: Env): RobotState {
    var t := SwitchedOver(RanPeriodic(Entered(s, env.word), env), env);
    t.(trace := t.trace + [RobotPeriodic])
  }

  class Robot {
    var lastMode: Mode
    var controlMode: Mode
    var failoverActive: bool
    var initialStartupROSCompleted: bool
    const swerve: SwerveDrivetrainFailover
    ghost var trace: seq<Effect>

    ghost function Value(): RobotState
      reads this, swerve
    {
      RobotState(lastMode, controlMode, failoverActive, initialStartupROSCompleted, swerve.Value(), trace)
    }

    constructor ()
      ensures Value() == START && fresh(swerve)
    {
      lastMode, controlMode, failoverActive, initialStartupROSCompleted := NoMode, Disabled, false, false;
      swerve := new SwerveDrivetrainFailover();
      trace := [];
    }

    /** The failover hooks of the mode entries are empty, whatever the answer to `isExternalControl`. */
    method EnterMode(mode: Mode)
      modifies `controlMode, `trace
      ensures controlMode == if mode == NoMode then old(controlMode) else mode
      ensures trace == old(trace) + if mode == NoMode then [] else [Init(mode)]
    {
      if mode != NoMode {
        controlMode := mode;
        trace := trace + [Init(mode)];
      }
    }

    method RunPeriodic(env: Env)
      modifies `trace, swerve
      ensures Value() == RanPeriodic(old(Value()), env)
    {
      if env.word != NoMode {
        trace := trace + [Periodic(env.word, controlMode)];
        if env.word == Teleop && !env.externalAtPeriodic {
          swerve.Run(env.stick, env.kin);
        }
      }
    }

    method RunRobotPeriodic(env: Env)
      requires swerve.joystick.Some? ==> swerve.joystick.value in swerve.live
      modifies this, swerve
      ensures var t := SwitchedOver(old(Value()), env);
              Value() == t.(trace := t.trace + [RobotPeriodic])
    {
      if env.external {
        if failoverActive {
          swerve.Uninit();
          failoverActive := false;
          trace := trace + [FailoverReset];
        } else if !initialStartupROSCompleted && env.dsAttached {
          initialStartupROSCompleted := true;
        }
      } else {
        if !failoverActive {
          swerve.Init(env.sensors);
          failoverActive := true;
          trace := trace + [FailoverInit];
        }
        swerve.Periodic(env.sensors);
        trace := trace + [FailoverPeriodic];
      }
      trace := trace + [RobotPeriodic];
    }

    method LoopFunc(env: Env)
      requires swerve.joystick.Some? ==> swerve.joystick.value in swerve.live
      modifies this, swerve
      ensures Value() == Looped(old(Value()), env)
    {
      var mode := env.word;
      if lastMode != mode {
        if lastMode != NoMode {
          trace := trace + [Exit(lastMode)];
        }
        EnterMode(mode);
        lastMode := mode;
      }
      assert Value() == Entered(old(Value()), mode);
      RunPeriodic(env);
      RunRobotPeriodic(env);
    }
  }

  // ---------------------------------------------------------------- over whole runs

  ghost function After(loops: seq<Env>): RobotState {
    if loops == [] then START else Looped(After(loops[..|loops| - 1]), loops[|loops| - 1])
  }

  /** A joystick object exists exactly while failover is active, and no drive output is left on without it. */
  ghost predicate Safe(s: RobotState) {
    && (s.failoverActive <==> s.swerve.joystick.Some?)
    && s.swerve.live == (if s.failoverActive then {s.swerve.joystick.value} else {})
    && (s.swerve.joystick.Some? ==> s.swerve.joystick.value < s.swerve.nextJoystick)
    && (!s.failoverActive ==> s.swerve.drive == ZERO)
  }

  /** Every intermediate state of a loop is safe too, so teleop code that runs before failover has been initialised, or
      after it has been reset, cannot move the robot. */
  lemma LoopIsSafe(s: RobotState, env: Env)
    requires Safe(s)
    ensures Safe(Entered(s, env.word)) && Safe(RanPeriodic(Entered(s, env.word), env)) && Safe(Looped(s, env))
  {
  }

  lemma {:induction false} AlwaysSafe(loops: seq<Env>)
    ensures Safe(After(loops))
  {
    if loops != [] {
      AlwaysSafe(loops[..|loops| - 1]);
      LoopIsSafe(After(loops[..|loops| - 1]), loops[|loops| - 1]);
    }
  }

  /** Shutting down after any run deletes the joystick that is alive, if there is one, and nothing leaks. */
  lemma ShutdownLeaksNothing(loops: seq<Env>)
    ensures UninitSwerve(After(loops).swerve).live == {} && UninitSwerve(After(loops).swerve).drive == ZERO
  {
    AlwaysSafe(loops);
  }

  // ---------------------------------------------------------------- what failover does to the drivetrain

  /** A steering position of 4096 units is a full turn, and turning an angle into a position is the inverse of reading
      one. */
  lemma SteeringUnits(position: real)
    ensures NativeSteeringAngle(360.0) == 4096.0 && SensorDegrees(4096.0) == 360.0
    ensures NativeSteeringAngle(SensorDegrees(position)) == position
  {
  }

  lemma DivideSum(a: real, b: real, c: real)
    requires c != 0.0
    ensures (a + b) / c == a / c + b / c
  {
  }

  /** One wheel turn per second is 6.75 motor turns of 2048 units, a tenth of them in 100 milliseconds; everything else
      is in proportion. */
  lemma DriveUnits(a: real, b: real)
    ensures NativeDriveVelocity(0.09906 * PI) == 6.75 * 2048.0 / 10.0
    ensures NativeDriveVelocity(a + b) == NativeDriveVelocity(a) + NativeDriveVelocity(b)
  {
    DivideSum(a, b, 0.09906 * PI);
  }

  /** In teleop, without external control and with the joystick that failover has opened, the modules get what the
      kinematics make of the sticks: forward and left are negative axes, full deflection is 4 m/s and 8 rad/s. */
  lemma TeleopDrives(s: RobotState, env: Env, i: nat)
    requires env.word == Teleop && !env.externalAtPeriodic && s.swerve.joystick.Some? && i < 4
    ensures env.stick.connected ==>
              var w := env.kin(4.0 * -env.stick.y, 4.0 * -env.stick.x, 8.0 * -env.stick.z, s.swerve.angles)[i];
              && RanPeriodic(s, env).swerve.drive[i] == NativeDriveVelocity(w.0)
              && RanPeriodic(s, env).swerve.steering[i] == NativeSteeringAngle(w.1)
    ensures !env.stick.connected ==>
              && RanPeriodic(s, env).swerve.drive[i] == 0.0
              && RanPeriodic(s, env).swerve.steering == s.swerve.steering
    ensures RanPeriodic(s, env).swerve.angles == s.swerve.angles
  {
  }

  /** External control, and every other mode, keeps the Periodic off the drivetrain. */
  lemma OnlyTeleopDrives(s: RobotState, env: Env)
    requires env.externalAtPeriodic || env.word != Teleop
    ensures RanPeriodic(s, env).swerve == s.swerve
  {
  }

  /** Initialising holds the wheels where the sensors see them, and counts a missing one as 0. */
  lemma InitHoldsTheWheels(s: Swerve, sensors: Sensors, i: nat)
    requires i < 4
    ensures var t := InitSwerve(s, sensors);
            && t.steering[i] == (if sensors[i].Some? then sensors[i].value else 0.0)
            && NativeSteeringAngle(t.angles[i]) == t.steering[i] && t.drive == s.drive
  {
  }

  /** Uninitialising stops the drive and leaves the wheels where they are. */
  lemma UninitStops(s: Swerve, i: nat)
    requires i < 4
    ensures UninitSwerve(s).drive[i] == 0.0
    ensures UninitSwerve(s).steering == s.steering && UninitSwerve(s).angles == s.angles
  {
  }

  /** Polling follows the sensors that there are, and moves nothing. */
  lemma PollFollowsTheWheels(s: Swerve, sensors: Sensors, i: nat)
    requires i < 4
    ensures var t := PollSwerve(s, sensors);
            && (sensors[i].Some? ==> NativeSteeringAngle(t.angles[i]) == sensors[i].value)
            && (sensors[i].None? ==> t.angles[i] == s.angles[i])
            && t.drive == s.drive && t.steering == s.steering && t.joystick == s.joystick
  {
  }

  /** Every loop without external control leaves the angles at what the sensors show, and the first one the wheels where
      they are. */
  lemma FailoverPolls(s: RobotState, env: Env, i: nat)
    requires !env.external && i < 4
    ensures var t := Looped(s, env).swerve;
            && (env.sensors[i].Some? ==> NativeSteeringAngle(t.angles[i]) == env.sensors[i].value)
            && (!s.failoverActive ==> t.steering[i] == if env.sensors[i].Some? then env.sensors[i].value else 0.0)
  {
    var u := RanPeriodic(Entered(s, env.word), env);
    var v := if u.failoverActive then u.swerve else InitSwerve(u.swerve, env.sensors);
    PollFollowsTheWheels(v, env.sensors, i);
    InitHoldsTheWheels(u.swerve, env.sensors, i);
  }

  /** The last mode of a run that has a name. */
  function LastNamed(loops: seq<Env>): Mode {
    if loops == [] then Disabled
    else if loops[|loops| - 1].word != NoMode then loops[|loops| - 1].word
    else LastNamed(loops[..|loops| - 1])
  }

  lemma LoopMode(s: RobotState, env: Env)
    requires s.lastMode != NoMode ==> s.controlMode == s.lastMode
    ensures Looped(s, env).lastMode == env.word
    ensures Looped(s, env).controlMode == if env.word == NoMode then s.controlMode else env.word
  {
  }

  /** The published control mode is the last one that has a name. */
  lemma {:induction false} PublishedMode(loops: seq<Env>)
    ensures After(loops).controlMode == LastNamed(loops)
    ensures After(loops).lastMode == if loops == [] then NoMode else loops[|loops| - 1].word
    ensures After(loops).lastMode != NoMode ==> After(loops).controlMode == After(loops).lastMode
  {
    if loops != [] {
      PublishedMode(loops[..|loops| - 1]);
      LoopMode(After(loops[..|loops| - 1]), loops[|loops| - 1]);
    }
  }

  /** After a teleop loop of a run in which failover has been active since the loop before, the drive outputs are those
      of the sticks, at the wheel angles that loop has left. */
  lemma {:induction false} FailoverDrives(loops: seq<Env>, i: nat)
    requires |loops| >= 2 && i < 4
    requires !loops[|loops| - 2].external
    requires var env := loops[|loops| - 1];
             env.word == Teleop && !env.externalAtPeriodic && !env.external && env.stick.connected
    ensures var env, before := loops[|loops| - 1], After(loops[..|loops| - 1]).swerve;
            var w := env.kin(4.0 * -env.stick.y, 4.0 * -env.stick.x, 8.0 * -env.stick.z, before.angles)[i];
            After(loops).swerve.drive[i] == NativeDriveVelocity(w.0)
  {
    var before := loops[..|loops| - 1];
    AlwaysSafe(before);
    assert before[|before| - 1] == loops[|loops| - 2];
    assert After(before).failoverActive;
    TeleopDrives(Entered(After(before), Teleop), loops[|loops| - 1], i);
  }

  /** External control is seen with the driver station attached, and was there the loop before, if there was one. */
  predicate CompletesStartup(loops: seq<Env>, i: nat)
    requires i < |loops|
  {
    loops[i].external && loops[i].dsAttached && (i == 0 || loops[i - 1].external)
  }

  lemma LoopStartup(s: RobotState, env: Env)
    ensures Looped(s, env).failoverActive <==> !env.external
    ensures Looped(s, env).initialStartupROSCompleted
            <==> s.initialStartupROSCompleted || (env.external && env.dsAttached && !s.failoverActive)
  {
  }

  lemma EarlierStartup(loops: seq<Env>, n: nat)
    requires n <= |loops|
    ensures forall i | 0 <= i < n :: CompletesStartup(loops[..n], i) <==> CompletesStartup(loops, i)
  {
  }

  /** The answers to `isExternalControl` alone decide when failover is active; the first sight of external control with
      the driver station attached, outside failover, completes the startup for good. */
  lemma {:induction false} StartupCompletedIff(loops: seq<Env>)
    ensures loops != [] ==> (After(loops).failoverActive <==> !loops[|loops| - 1].external)
    ensures After(loops).initialStartupROSCompleted <==> exists i | 0 <= i < |loops| :: CompletesStartup(loops, i)
  {
    if loops != [] {
      var n := |loops| - 1;
      StartupCompletedIff(loops[..n]);
      EarlierStartup(loops, n);
      LoopStartup(After(loops[..n]), loops[n]);
      assert CompletesStartup(loops, n)
        <==> loops[n].external && loops[n].dsAttached && !After(loops[..n]).failoverActive;
    }
  }

  // ---------------------------------------------------------------- what a trace may look like

  /** Where a trace of mode effects stands: which mode is entered, and what the current loop has done so far. */
  datatype Phase = LoopStart | Left | JustEntered | PeriodicDone

  datatype Bracket = Bracket(open: Mode, phase: Phase) | Wrong

  /** Entry and exit alternate and match; a mode's Periodic runs once per loop while the mode is entered, with that
      mode published; each loop ends with one RobotPeriodic. */
  function Accept(b: Bracket, e: Effect): Bracket {
    if b.Wrong? then Wrong
    else
      match e
      case Exit(m) => if b.phase == LoopStart && b.open == m && m != NoMode then Bracket(NoMode, Left) else Wrong
      case Init(m) =>
        if b.open == NoMode && (b.phase == LoopStart || b.phase == Left) && m != NoMode then Bracket(m, JustEntered)
        else Wrong
      case Periodic(m, published) =>
        if b.open == m && m != NoMode && published == m && (b.phase == LoopStart || b.phase == JustEntered)
        then Bracket(m, PeriodicDone) else Wrong
      case RobotPeriodic =>
        if b.phase == PeriodicDone || (b.open == NoMode && (b.phase == LoopStart || b.phase == Left))
        then Bracket(b.open, LoopStart) else Wrong
      case FailoverInit | FailoverReset | FailoverPeriodic => b
  }

  function Accepted(trace: seq<Effect>): Bracket {
    if trace == [] then Bracket(NoMode, LoopStart) else Accept(Accepted(trace[..|trace| - 1]), trace[|trace| - 1])
  }

  lemma AcceptedSnoc(trace: seq<Effect>, e: Effect)
    ensures Accepted(trace + [e]) == Accept(Accepted(trace), e)
  {
  }

  ghost predicate InMode(s: RobotState, phase: Phase) {
    && Accepted(s.trace) == Bracket(s.lastMode, phase)
    && (s.lastMode != NoMode ==> s.controlMode == s.lastMode)
  }

  lemma LeftIsBracketed(s: RobotState)
    requires InMode(s, LoopStart)
    ensures s.lastMode != NoMode ==> Accepted(s.trace + [Exit(s.lastMode)]) == Bracket(NoMode, Left)
  {
    AcceptedSnoc(s.trace, Exit(s.lastMode));
  }

  lemma InitIsBracketed(trace: seq<Effect>, mode: Mode)
    requires Accepted(trace) == Bracket(NoMode, LoopStart) || Accepted(trace) == Bracket(NoMode, Left)
    ensures mode != NoMode ==> Accepted(trace + [Init(mode)]) == Bracket(mode, JustEntered)
  {
    AcceptedSnoc(trace, Init(mode));
  }

  lemma EnteredIsBracketed(s: RobotState, mode: Mode)
    requires InMode(s, LoopStart)
    ensures var t := Entered(s, mode);
            || (InMode(t, LoopStart) && s.lastMode == mode)
            || (InMode(t, Left) && mode == NoMode)
            || (InMode(t, JustEntered) && mode != NoMode)
  {
    if s.lastMode != mode {
      var left := s.trace + if s.lastMode == NoMode then [] else [Exit(s.lastMode)];
      assert s.lastMode == NoMode ==> left == s.trace;
      LeftIsBracketed(s);
      InitIsBracketed(left, mode);
      assert Entered(s, mode).trace == if mode == NoMode then left else left + [Init(mode)];
    }
  }

  lemma FailoverIsSkipped(trace: seq<Effect>, e: Effect)
    requires e.FailoverInit? || e.FailoverReset? || e.FailoverPeriodic?
    ensures Accepted(trace).Bracket? ==> Accepted(trace + [e]) == Accepted(trace)
  {
    AcceptedSnoc(trace, e);
  }

  lemma SwitchedOverIsBracketed(s: RobotState, env: Env)
    ensures Accepted(s.trace).Bracket? ==> Accepted(SwitchedOver(s, env).trace) == Accepted(s.trace)
  {
    if env.external {
      FailoverIsSkipped(s.trace, FailoverReset);
    } else {
      var entered := if s.failoverActive then s.trace else s.trace + [FailoverInit];
      FailoverIsSkipped(s.trace, FailoverInit);
      FailoverIsSkipped(entered, FailoverPeriodic);
    }
  }

  lemma RanPeriodicIsBracketed(s: RobotState, env: Env, phase: Phase)
    requires InMode(s, phase) && s.lastMode == env.word
    requires if env.word == NoMode then phase == LoopStart || phase == Left
             else phase == LoopStart || phase == JustEntered
    ensures var t := RanPeriodic(s, env);
            InMode(t, if env.word == NoMode then phase else PeriodicDone) && t.lastMode == s.lastMode
  {
  }

  lemma LoopEndIsBracketed(s: RobotState, env: Env, phase: Phase)
    requires InMode(s, phase)
    requires phase == PeriodicDone || (s.lastMode == NoMode && (phase == LoopStart || phase == Left))
    ensures var t := SwitchedOver(s, env);
            InMode(t.(trace := t.trace + [RobotPeriodic]), LoopStart) && t.lastMode == s.lastMode
  {
    SwitchedOverIsBracketed(s, env);
    AcceptedSnoc(SwitchedOver(s, env).trace, RobotPeriodic);
  }

  lemma LoopIsBracketed(s: RobotState, env: Env)
    requires InMode(s, LoopStart)
    ensures InMode(Looped(s, env), LoopStart) && Looped(s, env).lastMode == env.word
  {
    var t := Entered(s, env.word);
    EnteredIsBracketed(s, env.word);
    var phase := if InMode(t, LoopStart) then LoopStart else if InMode(t, Left) then Left else JustEntered;
    RanPeriodicIsBracketed(t, env, phase);
    LoopEndIsBracketed(RanPeriodic(t, env), env, if env.word == NoMode then phase else PeriodicDone);
  }

  /** After every run the trace is well bracketed, and the mode entered is the one of the last control word. */
  lemma {:induction false} ModesAreBracketed(loops: seq<Env>)
    ensures InMode(After(loops), LoopStart)
    ensures loops != [] ==> After(loops).lastMode == loops[|loops| - 1].word
  {
    if loops != [] {
      ModesAreBracketed(loops[..|loops| - 1]);
      LoopIsBracketed(After(loops[..|loops| - 1]), loops[|loops| - 1]);
    }
  }

  /** Failover is initialised and reset in turns, beginning with an initialisation, and polled only in between. */
  function FailoverNext(active: Option<bool>, e: Effect): Option<bool> {
    match e
    case FailoverInit => if active == Some(false) then Some(true) else None
    case FailoverReset => if active == Some(true) then Some(false) else None
    case FailoverPeriodic => if active == Some(true) then active else None
    case _ => active
  }

  function FailoverState(trace: seq<Effect>): Option<bool> {
    if trace == [] then Some(false) else FailoverNext(FailoverState(trace[..|trace| - 1]), trace[|trace| - 1])
  }

  lemma FailoverSnoc(trace: seq<Effect>, e: Effect)
    ensures FailoverState(trace + [e]) == FailoverNext(FailoverState(trace), e)
  {
    assert (trace + [e])[..|trace|] == trace;
  }

  lemma FailoverUnaffected(trace: seq<Effect>, e: Effect)
    requires !e.FailoverInit? && !e.FailoverReset? && !e.FailoverPeriodic?
    ensures FailoverState(trace + [e]) == FailoverState(trace)
  {
    FailoverSnoc(trace, e);
  }

  lemma SwitchAlternates(s: RobotState, env: Env)
    requires FailoverState(s.trace) == Some(s.failoverActive)
    ensures FailoverState(SwitchedOver(s, env).trace) == Some(SwitchedOver(s, env).failoverActive)
  {
    if env.external {
      FailoverSnoc(s.trace, FailoverReset);
    } else {
      var entered := if s.failoverActive then s.trace else s.trace + [FailoverInit];
      FailoverSnoc(s.trace, FailoverInit);
      FailoverSnoc(entered, FailoverPeriodic);
    }
  }

  lemma LoopAlternates(s: RobotState, env: Env)
    requires FailoverState(s.trace) == Some(s.failoverActive)
    ensures FailoverState(Looped(s, env).trace) == Some(Looped(s, env).failoverActive)
  {
    var a := s.trace + if s.lastMode == NoMode then [] else [Exit(s.lastMode)];
    var t := Entered(s, env.word);
    if s.lastMode != env.word {
      if s.lastMode != NoMode {
        FailoverUnaffected(s.trace, Exit(s.lastMode));
      } else {
        assert a == s.trace;
      }
      if env.word != NoMode {
        FailoverUnaffected(a, Init(env.word));
      } else {
        assert t.trace == a;
      }
    }
    FailoverUnaffected(t.trace, Periodic(env.word, t.controlMode));
    SwitchAlternates(RanPeriodic(t, env), env);
    FailoverUnaffected(SwitchedOver(RanPeriodic(t, env), env).trace, RobotPeriodic);
  }

  lemma {:induction false} FailoverAlternates(loops: seq<Env>)
    ensures FailoverState(After(loops).trace) == Some(After(loops).failoverActive)
    ensures loops != [] ==> (After(loops).failoverActive <==> !loops[|loops| - 1].external)
  {
    if loops != [] {
      FailoverAlternates(loops[..|loops| - 1]);
      LoopAlternates(After(loops[..|loops| - 1]), loops[|loops| - 1]);
    }
  }

  function CountOf(trace: seq<Effect>, e: Effect): nat {
    if trace == [] then 0 else CountOf(trace[..|trace| - 1], e) + if trace[|trace| - 1] == e then 1 else 0
  }

  lemma CountSnoc(trace: seq<Effect>, last: Effect, e: Effect)
    ensures CountOf(trace + [last], e) == CountOf(trace, e) + if last == e then 1 else 0
  {
    assert (trace + [last])[..|trace|] == trace;
  }

  function LoopsWithoutExternal(loops: seq<Env>): nat {
    if loops == [] then 0
    else LoopsWithoutExternal(loops[..|loops| - 1]) + if loops[|loops| - 1].external then 0 else 1
  }

  lemma SwitchCounts(s: RobotState, env: Env)
    ensures CountOf(SwitchedOver(s, env).trace, RobotPeriodic) == CountOf(s.trace, RobotPeriodic)
    ensures CountOf(SwitchedOver(s, env).trace, FailoverPeriodic) ==
            CountOf(s.trace, FailoverPeriodic) + if env.external then 0 else 1
  {
    var entered := if s.failoverActive then s.trace else s.trace + [FailoverInit];
    forall e | e == RobotPeriodic || e == FailoverPeriodic
      ensures CountOf(s.trace + [FailoverReset], e) == CountOf(s.trace, e) == CountOf(entered, e)
      ensures CountOf(entered + [FailoverPeriodic], e) == CountOf(entered, e) + if e == FailoverPeriodic then 1 else 0
    {
      CountSnoc(s.trace, FailoverReset, e);
      CountSnoc(s.trace, FailoverInit, e);
      CountSnoc(entered, FailoverPeriodic, e);
    }
  }

  lemma EnteredCounts(s: RobotState, mode: Mode, e: Effect)
    requires e == RobotPeriodic || e == FailoverPeriodic
    ensures CountOf(Entered(s, mode).trace, e) == CountOf(s.trace, e)
  {
    var left := if s.lastMode == NoMode then s.trace else s.trace + [Exit(s.lastMode)];
    CountSnoc(s.trace, Exit(s.lastMode), e);
    CountSnoc(left, Init(mode), e);
    assert s.lastMode != mode ==> Entered(s, mode).trace == if mode == NoMode then left else left + [Init(mode)];
  }

  lemma PeriodicCounts(s: RobotState, env: Env, e: Effect)
    requires e == RobotPeriodic || e == FailoverPeriodic
    ensures CountOf(RanPeriodic(s, env).trace, e) == CountOf(s.trace, e)
  {
    CountSnoc(s.trace, Periodic(env.word, s.controlMode), e);
  }

  lemma ModeCounts(s: RobotState, env: Env, e: Effect)
    requires e == RobotPeriodic || e == FailoverPeriodic
    ensures CountOf(RanPeriodic(Entered(s, env.word), env).trace, e) == CountOf(s.trace, e)
  {
    EnteredCounts(s, env.word, e);
    PeriodicCounts(Entered(s, env.word), env, e);
  }

  lemma LoopCounts(s: RobotState, env: Env)
    ensures CountOf(Looped(s, env).trace, RobotPeriodic) == CountOf(s.trace, RobotPeriodic) + 1
    ensures CountOf(Looped(s, env).trace, FailoverPeriodic) ==
            CountOf(s.trace, FailoverPeriodic) + if env.external then 0 else 1
  {
    var u := RanPeriodic(Entered(s, env.word), env);
    ModeCounts(s, env, RobotPeriodic);
    ModeCounts(s, env, FailoverPeriodic);
    SwitchCounts(u, env);
    CountSnoc(SwitchedOver(u, env).trace, RobotPeriodic, RobotPeriodic);
    CountSnoc(SwitchedOver(u, env).trace, RobotPeriodic, FailoverPeriodic);
  }

  /** RobotPeriodic runs once per loop, and failover polls once per loop without external control. */
  lemma {:induction false} EveryLoopCounts(loops: seq<Env>)
    ensures CountOf(After(loops).trace, RobotPeriodic) == |loops|
    ensures CountOf(After(loops).trace, FailoverPeriodic) == LoopsWithoutExternal(loops)
  {
    if loops != [] {
      EveryLoopCounts(loops[..|loops| - 1]);
      LoopCounts(After(loops[..|loops| - 1]), loops[|loops| - 1]);
    }
  }
}
