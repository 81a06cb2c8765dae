/**
 What holds over every run of the motor tasks and the heartbeat, in any interleaving: the
 consistency of the five maps, when a motor is present, and that a disabled robot stands still.
 */
module MotorRuns {
  import opened Common
  import opened TalonConfig
  import opened TalonDifferential
  import opened MotorRegistry
  import opened MotorTasks

  datatype Event =
    | Configure(motors: Option<seq<Motor>>, encoders: set<int>)
    | Drive(commands: Option<seq<Command>>, disabled: bool, powerOn: Registers)
    | Heartbeat

  ghost function Step(o: Outcome, e: Event): Outcome {
    match o
    case Crashed => Crashed
    case Running(s) =>
      match e
      case Configure(motors, encoders) => ConfigStep(s, motors, encoders)
      case Drive(commands, disabled, powerOn) => Running(ValuesStep(s, commands, disabled, powerOn))
      case Heartbeat => Running(Ticked(s))
  }

  /** The outcome of a run that starts with nothing registered. */
  ghost function Run(events: seq<Event>): Outcome {
    if events == [] then Running(EMPTY) else Step(Run(events[..|events| - 1]), events[|events| - 1])
  }

  lemma RunSnoc(events: seq<Event>, e: Event)
    ensures Run(events + [e]) == Step(Run(events), e)
  {
    assert (events + [e])[..|events|] == events;
  }

  // ---------------------------------------------------------------- consistency of the maps

  lemma ConfiguredConsistent(s: Registry, k: Key, m: Motor, regs: Registers)
    requires Consistent(s) && k in s.motors
    ensures Consistent(Configured(s, k, m, regs)) && Configured(s, k, m, regs).motors.Keys == s.motors.Keys
  {
  }

  lemma ConfigureOneConsistent(s: Registry, n: nat, m: Motor, encoders: set<int>)
    requires Consistent(s) && ConfigureOne(s, n, m, encoders).Running?
    ensures var t := ConfigureOne(s, n, m, encoders).s;
            && Consistent(t) && t.configs == s.configs && t.heartbeats == s.heartbeats && t.types == s.types
            && t.motors.Keys == s.motors.Keys
  {
    var k := KeyOf(m.id);
    if k in s.motors {
      var regs := ConfigureOne(s, n, m, encoders).s.motors[k].registers;
      assert ConfigureOne(s, n, m, encoders).s == Configured(s, k, m, regs);
      ConfiguredConsistent(s, k, m, regs);
    }
  }

  lemma {:induction false} ConfigureAllConsistent(s: Registry, n: nat, motors: seq<Motor>, encoders: set<int>)
    requires Consistent(s) && ConfigureAll(s, n, motors, encoders).Running?
    ensures var t := ConfigureAll(s, n, motors, encoders).s;
            && Consistent(t) && t.configs == s.configs && t.heartbeats == s.heartbeats && t.types == s.types
            && t.motors.Keys == s.motors.Keys
    decreases |motors|
  {
    if motors != [] {
      ConfigureOneConsistent(s, n, motors[0], encoders);
      ConfigureAllConsistent(ConfigureOne(s, n, motors[0], encoders).s, n, motors[1..], encoders);
    }
  }

  lemma {:induction false} StoredKeys(configs: map<Key, Motor>, motors: seq<Motor>)
    ensures configs.Keys <= Stored(configs, motors).Keys
    decreases |motors|
  {
    if motors != [] {
      StoredKeys(configs[KeyOf(motors[0].id) := motors[0]], motors[1..]);
    }
  }

  lemma RegisteredConsistent(s: Registry, k: Key, motorType: int, powerOn: Registers)
    requires Consistent(s) && k in s.configs
    ensures Consistent(Registered(s, k, motorType, powerOn))
  {
  }

  lemma DrivenConsistent(s: Registry, c: Command)
    requires Consistent(s)
    ensures Consistent(Driven(s, c))
  {
  }

  lemma CommandOneConsistent(s: Registry, c: Command, powerOn: Registers)
    requires Consistent(s)
    ensures Consistent(CommandOne(s, c, powerOn))
  {
    if Admitted(s, c) {
      var t := Registered(s, KeyOf(c.id), c.motorType, powerOn);
      RegisteredConsistent(s, KeyOf(c.id), c.motorType, powerOn);
      DrivenConsistent(t, c);
    }
  }

  lemma {:induction false} CommandAllConsistent(s: Registry, commands: seq<Command>, powerOn: Registers)
    requires Consistent(s)
    ensures Consistent(CommandAll(s, commands, powerOn))
    decreases |commands|
  {
    if commands != [] {
      CommandOneConsistent(s, commands[0], powerOn);
      CommandAllConsistent(CommandOne(s, commands[0], powerOn), commands[1..], powerOn);
    }
  }

  lemma TickedConsistent(s: Registry)
    requires Consistent(s)
    ensures Consistent(Ticked(s))
  {
  }

  lemma StepKeepsConsistent(s: Registry, e: Event)
    requires Consistent(s)
    ensures Step(Running(s), e).Running? ==> Consistent(Step(Running(s), e).s)
  {
    match e {
      case Configure(message, encoders) =>
        if message.Some? {
          StoredKeys(s.configs, message.value);
          var t := s.(configs := Stored(s.configs, message.value));
          if ConfigureAll(t, |message.value|, message.value, encoders).Running? {
            ConfigureAllConsistent(t, |message.value|, message.value, encoders);
          }
        }
      case Drive(message, _, powerOn) =>
        if message.Some? {
          CommandAllConsistent(s, message.value, powerOn);
        }
      case Heartbeat => TickedConsistent(s);
    }
  }

  lemma {:induction false} AlwaysConsistent(events: seq<Event>)
    requires Run(events).Running?
    ensures Consistent(Run(events).s)
  {
    if events != [] {
      var before := events[..|events| - 1];
      AlwaysConsistent(before);
      StepKeepsConsistent(Run(before).s, events[|events| - 1]);
    }
  }

  // ---------------------------------------------------------------- crashes

  /** No motor of the message asks for a remote sensor that is not registered. */
  ghost predicate EncodersKnown(e: Event) {
    e.Configure? && e.motors.Some? ==>
      forall m | m in e.motors.value ::
        m.Get(FeedbackSensorCanId) <= 0.0 || m.Get(FeedbackSensorCanId).Floor in e.encoders
  }

  lemma {:induction false} ConfigureAllRuns(s: Registry, n: nat, motors: seq<Motor>, encoders: set<int>)
    requires forall m | m in motors :: !EncoderMissing(m, encoders)
    ensures ConfigureAll(s, n, motors, encoders).Running?
    decreases |motors|
  {
    if motors != [] {
      assert ConfigureOne(s, n, motors[0], encoders).Running?;
      ConfigureAllRuns(ConfigureOne(s, n, motors[0], encoders).s, n, motors[1..], encoders);
    }
  }

  /** As long as every remote sensor asked for is a registered encoder, no run crashes. */
  lemma {:induction false} KnownEncodersNeverCrash(events: seq<Event>)
    requires forall i | 0 <= i < |events| :: EncodersKnown(events[i])
    ensures Run(events).Running?
  {
    if events != [] {
      var before, e := events[..|events| - 1], events[|events| - 1];
      KnownEncodersNeverCrash(before);
      if e.Configure? && e.motors.Some? {
        var s := Run(before).s;
        ConfigureAllRuns(s.(configs := Stored(s.configs, e.motors.value)), |e.motors.value|, e.motors.value,
                         e.encoders);
      }
    }
  }

  // ---------------------------------------------------------------- standing still

  /** Nothing but a follower is told to move. */
  ghost predicate StandsStill(s: Registry) {
    forall k | k in s.motors :: s.motors[k].demand.Following? || s.motors[k].demand == NEUTRAL
  }

  lemma ConfigureOneStandsStill(s: Registry, n: nat, m: Motor, encoders: set<int>)
    requires StandsStill(s) && ConfigureOne(s, n, m, encoders).Running?
    ensures StandsStill(ConfigureOne(s, n, m, encoders).s)
  {
  }

  lemma {:induction false} ConfigureAllStandsStill(s: Registry, n: nat, motors: seq<Motor>, encoders: set<int>)
    requires StandsStill(s) && ConfigureAll(s, n, motors, encoders).Running?
    ensures StandsStill(ConfigureAll(s, n, motors, encoders).s)
    decreases |motors|
  {
    if motors != [] {
      ConfigureOneStandsStill(s, n, motors[0], encoders);
      ConfigureAllStandsStill(ConfigureOne(s, n, motors[0], encoders).s, n, motors[1..], encoders);
    }
  }

  /** Once the value task has run in disabled mode, and until it runs in another, the motors stand still, whatever is
      commanded, configured, registered and reaped in between. */
  lemma {:induction false} DisabledMotorsStandStill(events: seq<Event>, at: nat)
    requires Run(events).Running? && at < |events| && events[at].Drive?
    requires forall i | at <= i < |events| :: events[i].Drive? ==> events[i].disabled
    ensures StandsStill(Run(events).s)
  {
    var before, e := events[..|events| - 1], events[|events| - 1];
    if !e.Drive? {
      DisabledMotorsStandStill(before, at);
      var s := Run(before).s;
      if e.Configure? && e.motors.Some? {
        var t := s.(configs := Stored(s.configs, e.motors.value));
        ConfigureAllStandsStill(t, |e.motors.value|, e.motors.value, e.encoders);
      }
    }
  }

  // ---------------------------------------------------------------- when a motor is present

  ghost function RefreshedByOne(s: Registry, c: Command): set<Key> {
    if Admitted(s, c) && Registers?(s, KeyOf(c.id), c.motorType) then {KeyOf(c.id)} else {}
  }

  /** The motors whose heartbeat a control message refreshes. */
  ghost function Refreshed(s: Registry, commands: seq<Command>, powerOn: Registers): set<Key>
    decreases |commands|
  {
    if commands == [] then {}
    else RefreshedByOne(s, commands[0]) + Refreshed(CommandOne(s, commands[0], powerOn), commands[1..], powerOn)
  }

  ghost function Zeroed(since: map<Key, nat>, keys: set<Key>): map<Key, nat> {
    map k | k in since.Keys + keys :: if k in keys then 0 else since[k]
  }

  ghost function SinceStep(o: Outcome, since: map<Key, nat>, e: Event): map<Key, nat> {
    match e
    case Heartbeat => map k | k in since :: since[k] + 1
    case Drive(Some(commands), _, powerOn) =>
      if o.Crashed? then since else Zeroed(since, Refreshed(o.s, commands, powerOn))
    case _ => since
  }

  /** Ticks since a motor was last registered. Unlike the registry's own counters this never forgets a motor. */
  ghost function Since(events: seq<Event>): map<Key, nat> {
    if events == [] then map[]
    else
      var before := events[..|events| - 1];
      SinceStep(Run(before), Since(before), events[|events| - 1])
  }

  ghost predicate Aged(s: Registry, since: map<Key, nat>) {
    && (forall k :: k in s.heartbeats <==> k in since && since[k] < MAX_HEARTBEAT_TICKS)
    && (forall k | k in s.heartbeats :: s.heartbeats[k] == MAX_HEARTBEAT_TICKS - since[k])
  }

  lemma ZeroedTwice(since: map<Key, nat>, a: set<Key>, b: set<Key>)
    ensures Zeroed(Zeroed(since, a), b) == Zeroed(since, a + b)
    ensures Zeroed(since, {}) == since
  {
  }

  lemma CommandOneAged(s: Registry, c: Command, powerOn: Registers, since: map<Key, nat>)
    requires Aged(s, since)
    ensures Aged(CommandOne(s, c, powerOn), Zeroed(since, RefreshedByOne(s, c)))
  {
    ZeroedTwice(since, {}, {});
    if RefreshedByOne(s, c) != {} {
      var t := Registered(s, KeyOf(c.id), c.motorType, powerOn);
      assert CommandOne(s, c, powerOn).heartbeats == t.heartbeats == s.heartbeats[KeyOf(c.id) := MAX_HEARTBEAT_TICKS];
    } else {
      assert CommandOne(s, c, powerOn).heartbeats == s.heartbeats;
    }
  }

  lemma {:induction false} CommandAllAged(s: Registry, commands: seq<Command>, powerOn: Registers,
                                          since: map<Key, nat>)
    requires Aged(s, since)
    ensures Aged(CommandAll(s, commands, powerOn), Zeroed(since, Refreshed(s, commands, powerOn)))
    decreases |commands|
  {
    if commands == [] {
      ZeroedTwice(since, {}, {});
    } else {
      var hit, t := RefreshedByOne(s, commands[0]), CommandOne(s, commands[0], powerOn);
      CommandOneAged(s, commands[0], powerOn, since);
      CommandAllAged(t, commands[1..], powerOn, Zeroed(since, hit));
      ZeroedTwice(since, hit, Refreshed(t, commands[1..], powerOn));
    }
  }

  lemma TickedAged(s: Registry, since: map<Key, nat>)
    requires Consistent(s) && Aged(s, since)
    ensures Aged(Ticked(s), map k | k in since :: since[k] + 1)
  {
  }

  lemma StepAged(s: Registry, since: map<Key, nat>, e: Event)
    requires Consistent(s) && Aged(s, since)
    ensures Step(Running(s), e).Running? ==> Aged(Step(Running(s), e).s, SinceStep(Running(s), since, e))
  {
    match e {
      case Configure(message, encoders) =>
        if message.Some? && Step(Running(s), e).Running? {
          StoredKeys(s.configs, message.value);
          ConfigureAllConsistent(s.(configs := Stored(s.configs, message.value)), |message.value|, message.value,
                                 encoders);
        }
      case Drive(message, _, powerOn) =>
        if message.Some? {
          CommandAllAged(s, message.value, powerOn, since);
        }
      case Heartbeat => TickedAged(s, since);
    }
  }

  lemma {:induction false} AlwaysAged(events: seq<Event>)
    requires Run(events).Running?
    ensures Aged(Run(events).s, Since(events))
  {
    if events != [] {
      var before := events[..|events| - 1];
      AlwaysAged(before);
      AlwaysConsistent(before);
      StepAged(Run(before).s, Since(before), events[|events| - 1]);
    }
  }

  /** After any run a motor is present exactly when it has been registered and fewer than 250 ticks have passed
      since. */
  lemma PresentIffRecentlyRegistered(events: seq<Event>, k: Key)
    requires Run(events).Running?
    ensures k in Run(events).s.motors <==> k in Since(events) && Since(events)[k] < 250
  {
    AlwaysConsistent(events);
    AlwaysAged(events);
  }

  ghost function WithTicks(events: seq<Event>, ticks: nat): seq<Event> {
    if ticks == 0 then events else WithTicks(events, ticks - 1) + [Heartbeat]
  }

  lemma SinceSnoc(events: seq<Event>, e: Event)
    ensures Since(events + [e]) == SinceStep(Run(events), Since(events), e)
  {
    assert (events + [e])[..|events|] == events;
  }

  /** Ticks alone age every motor by as many. */
  lemma {:induction false} SinceAfterTicks(events: seq<Event>, ticks: nat)
    requires Run(events).Running?
    ensures var all := WithTicks(events, ticks);
            && Run(all).Running? && Since(all).Keys == Since(events).Keys
            && forall k | k in Since(all) :: Since(all)[k] == Since(events)[k] + ticks
  {
    if ticks > 0 {
      SinceAfterTicks(events, ticks - 1);
      RunSnoc(WithTicks(events, ticks - 1), Heartbeat);
      SinceSnoc(WithTicks(events, ticks - 1), Heartbeat);
    }
  }

  lemma TickRemovesTogether(s: Registry)
    requires Consistent(s)
    ensures Ticked(s).motors.Keys <= s.motors.Keys
    ensures Ticked(s).configs == s.configs - (s.motors.Keys - Ticked(s).motors.Keys)
  {
    var gone := Expired(s.heartbeats, UINT16_COUNT);
    assert gone == s.motors.Keys - Ticked(s).motors.Keys;
  }

  lemma RemoveInTurn(configs: map<Key, Motor>, all: set<Key>, some: set<Key>, few: set<Key>)
    requires few <= some <= all
    ensures configs - (all - some) - (some - few) == configs - (all - few)
  {
  }

  /** Ticks remove a motor and its configuration together, and no other configuration. */
  lemma {:induction false} ConfigsAfterTicks(events: seq<Event>, ticks: nat)
    requires Run(events).Running?
    ensures var s, o := Run(events).s, Run(WithTicks(events, ticks));
            && o.Running? && o.s.motors.Keys <= s.motors.Keys
            && o.s.configs == s.configs - (s.motors.Keys - o.s.motors.Keys)
  {
    if ticks > 0 {
      var before := WithTicks(events, ticks - 1);
      ConfigsAfterTicks(events, ticks - 1);
      RunSnoc(before, Heartbeat);
      AlwaysConsistent(before);
      TickRemovesTogether(Run(before).s);
      RemoveInTurn(Run(events).s.configs, Run(events).s.motors.Keys, Run(before).s.motors.Keys,
                   Ticked(Run(before).s).motors.Keys);
    }
  }

  lemma NoKeys<V>(m: map<Key, V>)
    requires forall k: Key :: k !in m
    ensures m == map[]
  {
  }

  /** 250 ticks in a row leave no motor, no previous message and no configuration of a motor; the configurations of ids
      that were never registered stay. */
  lemma SilenceEmptiesTheRegistry(events: seq<Event>, ticks: nat)
    requires Run(events).Running? && ticks >= MAX_HEARTBEAT_TICKS
    ensures var s, o := Run(events).s, Run(WithTicks(events, ticks));
            && o.Running? && o.s.motors == map[] && o.s.types == map[] && o.s.heartbeats == map[] && o.s.prev == map[]
            && o.s.configs == s.configs - s.motors.Keys
  {
    var all := WithTicks(events, ticks);
    SinceAfterTicks(events, ticks);
    ConfigsAfterTicks(events, ticks);
    AlwaysConsistent(all);
    forall k: Key
      ensures k !in Run(all).s.motors
    {
      PresentIffRecentlyRegistered(all, k);
    }
    NoKeys(Run(all).s.motors);
    NoKeys(Run(all).s.types);
    NoKeys(Run(all).s.heartbeats);
    NoKeys(Run(all).s.prev);
    assert Run(events).s.motors.Keys - {} == Run(events).s.motors.Keys;
  }
}
