/**
 The two tasks that drive the motor registry: `ApplyMotorConfigTask`, which configures each motor
 of a message fully or differentially, and `ApplyMotorValuesTask`, which registers motors and sets
 their outputs. Both run on the scheduler's thread, as the heartbeat does, so a run is a sequence of
 whole steps. A message that is absent, unparsable or met with the configuration lock held is None.
 */
module MotorTasks {
  import opened Common
  import opened TalonConfig
  import opened TalonDifferential
  import opened MotorRegistry

  /** A null dereference in an update function ends the process. */
  datatype Outcome = Running(s: Registry) | Crashed

  // ---------------------------------------------------------------- ApplyMotorConfigTask

  /** What `std::map::operator[]` yields for a motor without a previous message. */
  const NO_MESSAGE := Motor(0, map[])

  function Baseline(s: Registry, k: Key): Motor {
    if k in s.prev then s.prev[k] else NO_MESSAGE
  }

  ghost predicate ComparisonCrashes(m1: Motor, m2: Motor, encoders: set<int>) {
    FeedbackSensorCanId in HandledTouched(m1, m2) && EncoderMissing(m2, encoders)
  }

  /** Motor k has the given registers, and m is remembered as its configuration. */
  ghost function Configured(s: Registry, k: Key, m: Motor, regs: Registers): Registry
    requires k in s.motors
  {
    s.(motors := s.motors[k := s.motors[k].(registers := regs)], prev := s.prev[k := m])
  }

  /** One motor of a message of n motors. */
  ghost function ConfigureOne(s: Registry, n: nat, m: Motor, encoders: set<int>): Outcome {
    var k := KeyOf(m.id);
    if k !in s.motors || k !in s.types then Running(s)
    else
      var regs, kind, base := s.motors[k].registers, s.types[k], Baseline(s, k);
      if |s.prev| != n then Running(Configured(s, k, m, FullRegisters(m, kind, regs)))
      else if ComparisonCrashes(base, m, encoders) then Crashed
      else Running(Configured(s, k, m, DiffRegisters(HandledTouched(base, m), m, kind, regs)))
  }

  ghost function ConfigureAll(s: Registry, n: nat, motors: seq<Motor>, encoders: set<int>): Outcome
    decreases |motors|
  {
    if motors == [] then Running(s)
    else
      match ConfigureOne(s, n, motors[0], encoders)
      case Crashed => Crashed
      case Running(t) => ConfigureAll(t, n, motors[1..], encoders)
  }

  ghost function ConfigStep(s: Registry, message: Option<seq<Motor>>, encoders: set<int>): Outcome {
    if message.None? then Running(s)
    else ConfigureAll(s.(configs := Stored(s.configs, message.value)), |message.value|, message.value, encoders)
  }

  class ApplyMotorConfigTask {
    const registry: MotorManager
    const reporter: DifferentialUpdateReporter

    constructor (registry: MotorManager)
      ensures this.registry == registry && reporter.Valid() && fresh(reporter)
    {
      this.registry := registry;
      reporter := new DifferentialUpdateReporter();
    }

    /** `differ` is the reporting behaviour of the message differencer, any that keeps its promise. */
    method Run(message: Option<seq<Motor>>, encoders: set<int>, differ: (Motor, Motor) -> seq<Report>)
      returns (crashed: bool)
      requires reporter.Valid() && Consistent(registry.Value())
      requires forall a, b :: ReportsDifferences(a, b, differ(a, b))
      modifies registry, registry.configs
      ensures crashed <==> ConfigStep(old(registry.Value()), message, encoders) == Crashed
      ensures !crashed ==> Running(registry.Value()) == ConfigStep(old(registry.Value()), message, encoders)
    {
      if message.None? {
        return false;
      }
      var motors := message.value;
      registry.configs.SetMotorsConfigMsg(motors);
      ghost var start := registry.Value();
      for i := 0 to |motors|
        invariant registry.motors.Keys == registry.types.Keys
        invariant ConfigureAll(start, |motors|, motors, encoders) ==
                  ConfigureAll(registry.Value(), |motors|, motors[i..], encoders)
      {
        assert motors[i..][0] == motors[i] && motors[i..][1..] == motors[i + 1..];
        crashed := ConfigureMotor(|motors|, motors[i], encoders, differ);
        if crashed {
          return;
        }
      }
      crashed := false;
    }

    /** One round of the loop. The size test reads the map that the loop is filling. */
    method ConfigureMotor(n: nat, m: Motor, encoders: set<int>, differ: (Motor, Motor) -> seq<Report>)
      returns (crashed: bool)
      requires reporter.Valid() && registry.motors.Keys == registry.types.Keys
      requires forall a, b :: ReportsDifferences(a, b, differ(a, b))
      modifies registry, registry.configs
      ensures crashed <==> ConfigureOne(old(registry.Value()), n, m, encoders) == Crashed
      ensures !crashed ==> Running(registry.Value()) == ConfigureOne(old(registry.Value()), n, m, encoders)
      ensures registry.motors.Keys == registry.types.Keys
    {
      var k := KeyOf(m.id);
      if k in registry.motors {
        var talon := registry.motors[k];
        var regs := talon.registers;
        if n == |registry.configs.prevMotorMsgs| {
          if k !in registry.configs.prevMotorMsgs {
            registry.configs.SetPrevMotorConfigMsg(k, NO_MESSAGE);
          }
          var base := registry.configs.prevMotorMsgs[k];
          assert base == old(Baseline(registry.Value(), k));
          regs, crashed := reporter.Compare(base, m, differ(base, m), registry.types[k], encoders, regs);
          if crashed {
            return;
          }
        } else {
          regs := FullUpdate(m, registry.types[k], regs);
        }
        registry.motors := registry.motors[k := talon.(registers := regs)];
        registry.configs.SetPrevMotorConfigMsg(k, m);
        assert registry.configs.prevMotorMsgs == old(registry.configs.prevMotorMsgs)[k := m];
      }
      crashed := false;
    }
  }

  // ---------------------------------------------------------------- ApplyMotorValuesTask

  const FOLLOWER := 5

  /** One motor of a control message; `output` is None for an infinity or a NaN, and `master` is the output value
      read as an id, which is what a follower sends. */
  datatype Command = Command(id: int, mode: int, output: Option<real>, master: Key, feedforward: real, motorType: int)

  /** A motor is driven when it has a configuration and, as a follower, a registered master. */
  predicate Admitted(s: Registry, c: Command) {
    KeyOf(c.id) in s.configs && (c.mode == FOLLOWER ==> c.master in s.motors)
  }

  /** The demand of a registered motor after the command, when it was d before. */
  function Told(s: Registry, c: Command, d: Demand): Demand {
    if c.mode != FOLLOWER then
      if c.output.Some? then Output(c.mode, c.output.value, c.feedforward) else d
    else if c.master in s.motors && !d.Following? then Following(c.master)
    else d
  }

  function Driven(s: Registry, c: Command): Registry {
    var k := KeyOf(c.id);
    if k !in s.motors then s
    else s.(motors := s.motors[k := s.motors[k].(demand := Told(s, c, s.motors[k].demand))])
  }

  function CommandOne(s: Registry, c: Command, powerOn: Registers): Registry {
    if Admitted(s, c) then Driven(Registered(s, KeyOf(c.id), c.motorType, powerOn), c) else s
  }

  function CommandAll(s: Registry, commands: seq<Command>, powerOn: Registers): Registry
    decreases |commands|
  {
    if commands == [] then s else CommandAll(CommandOne(s, commands[0], powerOn), commands[1..], powerOn)
  }

  ghost function NeutralBelow(motors: map<Key, Talon>, bound: int): map<Key, Talon> {
    map k | k in motors ::
      if k < bound && !motors[k].demand.Following? then motors[k].(demand := NEUTRAL) else motors[k]
  }

  ghost function ValuesStep(s: Registry, message: Option<seq<Command>>, disabled: bool, powerOn: Registers): Registry {
    var t := if message.Some? then CommandAll(s, message.value, powerOn) else s;
    if disabled then t.(motors := NeutralBelow(t.motors, UINT16_COUNT)) else t
  }

  lemma NeutralOne(motors: map<Key, Talon>, k: Key)
    requires k in motors
    ensures k in NeutralBelow(motors, k) && NeutralBelow(motors, k)[k] == motors[k]
    ensures NeutralBelow(motors, k + 1) ==
            if motors[k].demand.Following? then NeutralBelow(motors, k)
            else NeutralBelow(motors, k)[k := motors[k].(demand := NEUTRAL)]
  {
  }

  lemma NeutralGap(motors: map<Key, Talon>, from: nat)
    requires from <= UINT16_COUNT
    ensures NeutralBelow(motors, from) == NeutralBelow(motors, PositionOf(NextKey(motors.Keys, from)))
  {
  }

  // ---------------------------------------------------------------- what a command does

  /** The motor of the command is, or becomes, registered. */
  predicate Reaches(s: Registry, c: Command) {
    Admitted(s, c) && (KeyOf(c.id) in s.motors || (KeyOf(c.id) < 64 && (c.motorType == 0 || c.motorType == 1)))
  }

  lemma RegisteredMotors(s: Registry, k: Key, motorType: int, powerOn: Registers)
    ensures var t := Registered(s, k, motorType, powerOn);
            && (k in t.motors <==> k in s.motors || (k < 64 && (motorType == 0 || motorType == 1)))
            && (k in s.motors ==> t.motors == s.motors)
            && (k in t.motors && k !in s.motors ==>
                  t.motors == s.motors[k := Talon(if motorType == 0 then TalonFX else TalonSRX, powerOn, NEUTRAL)])
            && (k !in t.motors ==> t.motors == s.motors)
  {
    if k in s.motors {
      if k < 64 {
        KnownMotor(s, k, motorType, powerOn);
      }
    } else {
      NewMotor(s, k, motorType, powerOn);
    }
  }

  /** A command reaches its motor exactly when the motor is configured and registered, or can be registered, and a
      follower's only when its master is registered. */
  lemma ReachesIff(s: Registry, c: Command, powerOn: Registers)
    ensures Reaches(s, c) <==>
            && KeyOf(c.id) in s.configs
            && (c.mode == FOLLOWER ==> c.master in s.motors)
            && KeyOf(c.id) in CommandOne(s, c, powerOn).motors
    ensures !Admitted(s, c) ==> CommandOne(s, c, powerOn) == s
  {
    RegisteredMotors(s, KeyOf(c.id), c.motorType, powerOn);
  }

  /** The demand a motor had when the command reached it; a new controller stands still. */
  function DemandBefore(s: Registry, k: Key): Demand {
    if k in s.motors then s.motors[k].demand else NEUTRAL
  }

  /** A finite command is set as it is sent, each of its numbers in its place; a follower's makes the motor follow,
      unless it follows already; an infinity or a NaN changes nothing. */
  predicate Obeyed(c: Command, before: Demand, after: Demand) {
    if c.mode == FOLLOWER then after == if before.Following? then before else Following(c.master)
    else if c.output.None? then after == before
    else after.Output? && after.mode == c.mode && after.value == c.output.value && after.feedforward == c.feedforward
  }

  lemma CommandIsObeyed(s: Registry, c: Command, powerOn: Registers)
    requires Reaches(s, c)
    ensures var k, t := KeyOf(c.id), CommandOne(s, c, powerOn);
            k in t.motors && Obeyed(c, DemandBefore(s, k), t.motors[k].demand)
  {
    RegisteredMotors(s, KeyOf(c.id), c.motorType, powerOn);
  }

  /** The other motors are the same in both, and the registers of all. */
  ghost predicate LeavesOthersAlone(s: Registry, t: Registry, k: Key) {
    && (forall j | j in s.motors :: j in t.motors && t.motors[j].registers == s.motors[j].registers)
    && (forall j | j in t.motors && j != k :: j in s.motors && t.motors[j] == s.motors[j])
    && t.configs == s.configs && t.prev == s.prev
  }

  lemma RegisteringLeavesOthersAlone(s: Registry, k: Key, motorType: int, powerOn: Registers)
    ensures LeavesOthersAlone(s, Registered(s, k, motorType, powerOn), k)
  {
    RegisteredMotors(s, k, motorType, powerOn);
  }

  lemma DrivingLeavesOthersAlone(s: Registry, c: Command)
    ensures LeavesOthersAlone(s, Driven(s, c), KeyOf(c.id))
  {
  }

  /** No command touches another motor, or the registers of a controller. */
  lemma OthersAreLeftAlone(s: Registry, c: Command, powerOn: Registers)
    ensures LeavesOthersAlone(s, CommandOne(s, c, powerOn), KeyOf(c.id))
  {
    if Admitted(s, c) {
      var t := Registered(s, KeyOf(c.id), c.motorType, powerOn);
      RegisteringLeavesOthersAlone(s, KeyOf(c.id), c.motorType, powerOn);
      DrivingLeavesOthersAlone(t, c);
    }
  }

  lemma {:induction false} OtherCommandsLeaveItAlone(s: Registry, commands: seq<Command>, powerOn: Registers, k: Key)
    requires k in s.motors && forall i | 0 <= i < |commands| :: KeyOf(commands[i].id) != k
    ensures k in CommandAll(s, commands, powerOn).motors
    ensures CommandAll(s, commands, powerOn).motors[k] == s.motors[k]
    decreases |commands|
  {
    if commands != [] {
      OthersAreLeftAlone(s, commands[0], powerOn);
      OtherCommandsLeaveItAlone(CommandOne(s, commands[0], powerOn), commands[1..], powerOn, k);
    }
  }

  lemma {:induction false} CommandsSplit(s: Registry, a: seq<Command>, b: seq<Command>, powerOn: Registers)
    ensures CommandAll(s, a + b, powerOn) == CommandAll(CommandAll(s, a, powerOn), b, powerOn)
    decreases |a|
  {
    if a == [] {
      assert a + b == b;
    } else {
      ConsAppend(a, b);
      CommandsSplit(CommandOne(s, a[0], powerOn), a[1..], b, powerOn);
    }
  }

  /** After a whole message the last command for a motor, if it reaches it, is the one that is obeyed. */
  lemma LastCommandIsObeyed(s: Registry, commands: seq<Command>, powerOn: Registers, i: nat)
    requires i < |commands| && forall j | i < j < |commands| :: KeyOf(commands[j].id) != KeyOf(commands[i].id)
    requires Reaches(CommandAll(s, commands[..i], powerOn), commands[i])
    ensures var k, t := KeyOf(commands[i].id), CommandAll(s, commands, powerOn);
            && k in t.motors
            && Obeyed(commands[i], DemandBefore(CommandAll(s, commands[..i], powerOn), k), t.motors[k].demand)
  {
    var c, before := commands[i], CommandAll(s, commands[..i], powerOn);
    var rest := commands[i + 1..];
    assert commands == commands[..i] + ([c] + rest);
    CommandsSplit(s, commands[..i], [c] + rest, powerOn);
    assert ([c] + rest)[1..] == rest;
    CommandIsObeyed(before, c, powerOn);
    OtherCommandsLeaveItAlone(CommandOne(before, c, powerOn), rest, powerOn, KeyOf(c.id));
  }

  /** Disabling leaves a follower following, and stops every other motor. */
  lemma DisablingStops(s: Registry, message: Option<seq<Command>>, powerOn: Registers, k: Key)
    ensures var running, stopped := ValuesStep(s, message, false, powerOn), ValuesStep(s, message, true, powerOn);
            && running.motors.Keys == stopped.motors.Keys
            && (k in running.motors ==>
                  stopped.motors[k] == if running.motors[k].demand.Following? then running.motors[k]
                                       else running.motors[k].(demand := Output(PERCENT_OUTPUT, 0.0, 0.0)))
  {
  }

  class ApplyMotorValuesTask {
    const registry: MotorManager

    constructor (registry: MotorManager)
      ensures this.registry == registry
    {
      this.registry := registry;
    }

    /** `powerOn` stands for the registers a controller has when its object is created. */
    method Run(message: Option<seq<Command>>, disabled: bool, powerOn: Registers)
      modifies registry
      ensures registry.Value() == ValuesStep(old(registry.Value()), message, disabled, powerOn)
    {
      if message.Some? {
        var commands := message.value;
        for i := 0 to |commands|
          invariant CommandAll(old(registry.Value()), commands, powerOn) ==
                    CommandAll(registry.Value(), commands[i..], powerOn)
        {
          assert commands[i..][0] == commands[i] && commands[i..][1..] == commands[i + 1..];
          Apply(commands[i], powerOn);
        }
      }
      if disabled {
        StopMasters();
      }
    }

    method Apply(c: Command, powerOn: Registers)
      modifies registry
      ensures registry.Value() == CommandOne(old(registry.Value()), c, powerOn)
    {
      var k := KeyOf(c.id);
      if k in registry.configs.motorMsgs {
        if (c.mode == FOLLOWER && c.master in registry.motors) || c.mode != FOLLOWER {
          registry.RegisterMotor(k, c.motorType, powerOn);
          if k in registry.motors {
            var t := registry.motors[k];
            if c.mode != FOLLOWER {
              if c.output.Some? {
                registry.motors := registry.motors[k := t.(demand := Output(c.mode, c.output.value, c.feedforward))];
              }
            } else {
              if c.master in registry.motors && !t.demand.Following? {
                registry.motors := registry.motors[k := t.(demand := Following(c.master))];
              }
            }
          }
        }
      }
    }

    /** In disabled mode every controller that does not follow another is told to output nothing. */
    method StopMasters()
      modifies registry
      ensures registry.Value() ==
              old(registry.Value()).(motors := NeutralBelow(old(registry.motors), UINT16_COUNT))
    {
      ghost var before := registry.motors;
      var keys := registry.motors.Keys;
      var it := NextKey(keys, 0);
      assert NeutralBelow(before, 0) == before;
      NeutralGap(before, 0);
      while it.Some?
        invariant it.Some? ==> it.value in keys
        invariant registry.Value() == old(registry.Value()).(motors := NeutralBelow(before, PositionOf(it)))
        decreases UINT16_COUNT - PositionOf(it)
      {
        var k: nat := it.value;
        NeutralOne(before, k);
        NeutralGap(before, k + 1);
        var t := registry.motors[k];
        if !t.demand.Following? {
          registry.motors := registry.motors[k := t.(demand := NEUTRAL)];
        }
        it := NextKey(keys, k + 1);
      }
    }
  }
}
