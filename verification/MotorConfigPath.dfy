/**
 The choice between a full and a differential update. The loop compares the size of the message with
 the size of the map of previous messages, which it fills as it goes: when does that send a motor
 without a previous message down the differential path, and what do repeated messages leave in the
 controllers?
 */
module MotorConfigPath {
  import opened Common
  import opened TalonConfig
  import opened TalonDifferential
  import opened MotorRegistry
  import opened MotorTasks
  import opened MotorRuns

  function Keys(motors: seq<Motor>): (keys: seq<Key>)
    ensures |keys| == |motors|
    ensures forall i | 0 <= i < |motors| :: keys[i] == KeyOf(motors[i].id)
  {
    seq(|motors|, i requires 0 <= i < |motors| => KeyOf(motors[i].id))
  }

  ghost function Ids(keys: seq<Key>): set<Key> {
    set k | k in keys
  }

  ghost predicate Distinct(keys: seq<Key>) {
    forall i, j | 0 <= i < j < |keys| :: keys[i] != keys[j]
  }

  lemma IdsSplit(keys: seq<Key>)
    requires keys != []
    ensures Ids(keys) == {keys[0]} + Ids(keys[1..])
  {
  }

  lemma {:induction false} FewIds(keys: seq<Key>)
    ensures |Ids(keys)| <= |keys|
    ensures Distinct(keys) ==> |Ids(keys)| == |keys|
  {
    if keys != [] {
      FewIds(keys[1..]);
      IdsSplit(keys);
      if Distinct(keys) {
        assert keys[0] !in Ids(keys[1..]);
      }
    }
  }

  // ---------------------------------------------------------------- counting

  /** The motors remembered after a round for key k, when `motors` are registered. */
  ghost function Remembered(prev: set<Key>, k: Key, motors: set<Key>): set<Key> {
    if k in motors then prev + {k} else prev
  }

  /** At some round of the loop over `keys` the sizes agree although the motor is not remembered. */
  ghost predicate UnbasedRound(prev: set<Key>, n: nat, keys: seq<Key>, motors: set<Key>)
    decreases |keys|
  {
    && keys != []
    && (|| (keys[0] in motors && |prev| == n && keys[0] !in prev)
        || UnbasedRound(Remembered(prev, keys[0], motors), n, keys[1..], motors))
  }

  lemma SizeGrows(a: set<Key>, b: set<Key>)
    requires a <= b
    ensures |a| <= |b|
  {
    assert b == a + (b - a);
  }

  lemma {:induction false} UnbasedRoundIff(prev: set<Key>, n: nat, keys: seq<Key>, motors: set<Key>)
    ensures UnbasedRound(prev, n, keys, motors) <==> |prev| <= n < |prev + Ids(keys) * motors|
    decreases |keys|
  {
    var total := prev + Ids(keys) * motors;
    if keys == [] {
      assert total == prev;
    } else {
      var next := Remembered(prev, keys[0], motors);
      IdsSplit(keys);
      UnbasedRoundIff(next, n, keys[1..], motors);
      assert next + Ids(keys[1..]) * motors == total;
      SizeGrows(next, total);
      if keys[0] !in motors || keys[0] in prev {
        assert next == prev;
      }
    }
  }

  // ---------------------------------------------------------------- the loop

  /** The motor is about to be compared with the default message that the map lookup makes up. */
  ghost predicate Unbased(s: Registry, n: nat, m: Motor) {
    KeyOf(m.id) in s.motors && |s.prev| == n && KeyOf(m.id) !in s.prev
  }

  /** At some round of the loop a motor without a previous message takes the differential path. */
  ghost predicate SomeUnbased(s: Registry, n: nat, motors: seq<Motor>, encoders: set<int>)
    decreases |motors|
  {
    && motors != []
    && (|| Unbased(s, n, motors[0])
        || (&& ConfigureOne(s, n, motors[0], encoders).Running?
            && SomeUnbased(ConfigureOne(s, n, motors[0], encoders).s, n, motors[1..], encoders)))
  }

  /** What a round does to the maps the path choice reads. */
  lemma ConfigureOneRemembers(s: Registry, n: nat, m: Motor, encoders: set<int>)
    requires Consistent(s) && ConfigureOne(s, n, m, encoders).Running?
    ensures var t, k := ConfigureOne(s, n, m, encoders).s, KeyOf(m.id);
            && Consistent(t) && t.motors.Keys == s.motors.Keys
            && t.prev == if k in s.motors then s.prev[k := m] else s.prev
  {
    ConfigureOneConsistent(s, n, m, encoders);
  }

  lemma KeysTail(motors: seq<Motor>)
    requires motors != []
    ensures Keys(motors)[1..] == Keys(motors[1..]) && Keys(motors)[0] == KeyOf(motors[0].id)
  {
  }

  /** The same, seen from the keys of the loop that is left. */
  lemma RoundRemembers(s: Registry, n: nat, motors: seq<Motor>, encoders: set<int>)
    requires Consistent(s) && motors != [] && ConfigureOne(s, n, motors[0], encoders).Running?
    ensures Keys(motors)[0] == KeyOf(motors[0].id) && Keys(motors)[1..] == Keys(motors[1..])
    ensures var t := ConfigureOne(s, n, motors[0], encoders).s;
            && Consistent(t) && t.motors.Keys == s.motors.Keys
            && t.prev.Keys == Remembered(s.prev.Keys, Keys(motors)[0], s.motors.Keys)
  {
    KeysTail(motors);
    ConfigureOneRemembers(s, n, motors[0], encoders);
  }

  lemma {:induction false} LoopFollowsKeys(s: Registry, n: nat, motors: seq<Motor>, encoders: set<int>)
    requires Consistent(s) && ConfigureAll(s, n, motors, encoders).Running?
    ensures SomeUnbased(s, n, motors, encoders) <==> UnbasedRound(s.prev.Keys, n, Keys(motors), s.motors.Keys)
    decreases |motors|
  {
    if motors != [] {
      RoundRemembers(s, n, motors, encoders);
      LoopFollowsKeys(ConfigureOne(s, n, motors[0], encoders).s, n, motors[1..], encoders);
      assert |s.prev| == |s.prev.Keys|;
    }
  }

  /** The exact condition, for any message and any registry: the remembered motors are no more than the message's,
      and the message's registered motors make them more. */
  lemma UnbasedIff(s: Registry, motors: seq<Motor>, encoders: set<int>)
    requires Consistent(s) && ConfigureAll(s, |motors|, motors, encoders).Running?
    ensures SomeUnbased(s, |motors|, motors, encoders) <==>
            |s.prev| <= |motors| < |s.prev.Keys + Ids(Keys(motors)) * s.motors.Keys|
  {
    LoopFollowsKeys(s, |motors|, motors, encoders);
    UnbasedRoundIff(s.prev.Keys, |motors|, Keys(motors), s.motors.Keys);
    assert |s.prev| == |s.prev.Keys|;
  }

  /** The choice is sound, with or without repeated ids, as long as every remembered motor is in the message. */
  lemma PathIsSound(s: Registry, motors: seq<Motor>, encoders: set<int>)
    requires Consistent(s) && ConfigureAll(s, |motors|, motors, encoders).Running?
    requires s.prev.Keys <= Ids(Keys(motors))
    ensures !SomeUnbased(s, |motors|, motors, encoders)
  {
    UnbasedIff(s, motors, encoders);
    SizeGrows(s.prev.Keys + Ids(Keys(motors)) * s.motors.Keys, Ids(Keys(motors)));
    FewIds(Keys(motors));
  }

  /** No motor is named twice, and all are registered. */
  ghost predicate AllRegistered(s: Registry, motors: seq<Motor>) {
    Distinct(Keys(motors)) && Ids(Keys(motors)) <= s.motors.Keys
  }

  lemma ReplacedCount(p: set<Key>, ids: set<Key>, motors: set<Key>)
    requires ids <= motors
    ensures |p| <= |ids| < |p + ids * motors| <==> 0 < |p - ids| <= |ids - p|
  {
    assert ids * motors == ids;
    assert p == (p - ids) + p * ids;
    assert ids == (ids - p) + p * ids;
    assert p + ids == ids + (p - ids);
  }

  /** It fails when motors leave the configuration and at least as many join it: with all motors registered and ids
      distinct, exactly then. */
  lemma PathFailsWhenMotorsAreReplaced(s: Registry, motors: seq<Motor>, encoders: set<int>)
    requires Consistent(s)
    ensures ConfigureAll(s, |motors|, motors, encoders).Running? && AllRegistered(s, motors) ==>
              (SomeUnbased(s, |motors|, motors, encoders) <==>
               0 < |s.prev.Keys - Ids(Keys(motors))| <= |Ids(Keys(motors)) - s.prev.Keys|)
  {
    if ConfigureAll(s, |motors|, motors, encoders).Running? && AllRegistered(s, motors) {
      UnbasedIff(s, motors, encoders);
      FewIds(Keys(motors));
      ReplacedCount(s.prev.Keys, Ids(Keys(motors)), s.motors.Keys);
      assert |s.prev| == |s.prev.Keys|;
    }
  }

  /** No field that feeds the register has a value in the message. */
  ghost predicate AtDefault(m: Motor, r: Register) {
    forall f | f in Feeds(r) :: Top(f) !in m.values
  }

  /** What an unbased comparison misses: a register whose fields are all at their default keeps whatever it held. */
  lemma UnbasedLeavesDefaultsUnwritten(s: Registry, n: nat, m: Motor, encoders: set<int>, r: Register)
    requires Consistent(s) && Unbased(s, n, m)
    ensures var o, k := ConfigureOne(s, n, m, encoders), KeyOf(m.id);
            o.Running? && AtDefault(m, r) ==> Reg(o.s.motors[k].registers, r) == Reg(s.motors[k].registers, r)
  {
    if AtDefault(m, r) {
      assert Feeds(r) !! HandledTouched(NO_MESSAGE, m);
    }
  }

  // ---------------------------------------------------------------- repeating a message

  /** The previous messages are the motors of `motors`. */
  ghost predicate Remembers(s: Registry, motors: seq<Motor>) {
    forall i | 0 <= i < |motors| :: KeyOf(motors[i].id) in s.prev && s.prev[KeyOf(motors[i].id)] == motors[i]
  }

  /** The previous messages after the loop. */
  ghost function PrevAfter(prev: map<Key, Motor>, motors: seq<Motor>, registered: set<Key>): map<Key, Motor>
    decreases |motors|
  {
    if motors == [] then prev
    else
      var k := KeyOf(motors[0].id);
      PrevAfter(if k in registered then prev[k := motors[0]] else prev, motors[1..], registered)
  }

  lemma {:induction false} LoopRemembers(s: Registry, n: nat, motors: seq<Motor>, encoders: set<int>)
    requires Consistent(s) && ConfigureAll(s, n, motors, encoders).Running?
    ensures ConfigureAll(s, n, motors, encoders).s.prev == PrevAfter(s.prev, motors, s.motors.Keys)
    decreases |motors|
  {
    if motors != [] {
      ConfigureOneRemembers(s, n, motors[0], encoders);
      LoopRemembers(ConfigureOne(s, n, motors[0], encoders).s, n, motors[1..], encoders);
    }
  }

  lemma {:induction false} PrevAfterKeys(prev: map<Key, Motor>, motors: seq<Motor>, registered: set<Key>)
    requires Ids(Keys(motors)) <= registered && Distinct(Keys(motors))
    ensures var after := PrevAfter(prev, motors, registered);
            && after.Keys == prev.Keys + Ids(Keys(motors))
            && (forall k | k in prev && k !in Ids(Keys(motors)) :: after[k] == prev[k])
            && (forall i | 0 <= i < |motors| ::
                  KeyOf(motors[i].id) in after && after[KeyOf(motors[i].id)] == motors[i])
    decreases |motors|
  {
    if motors == [] {
      assert Ids(Keys(motors)) == {};
    } else {
      var rest, k := motors[1..], KeyOf(motors[0].id);
      assert Keys(motors)[1..] == Keys(rest);
      IdsSplit(Keys(motors));
      assert k !in Ids(Keys(rest));
      PrevAfterKeys(prev[k := motors[0]], rest, registered);
      var after := PrevAfter(prev, motors, registered);
      forall i | 0 <= i < |motors|
        ensures KeyOf(motors[i].id) in after && after[KeyOf(motors[i].id)] == motors[i]
      {
        assert i > 0 ==> rest[i - 1] == motors[i];
      }
    }
  }

  lemma RememberedWritesNothing(s: Registry, m: Motor, encoders: set<int>)
    requires Consistent(s) && KeyOf(m.id) in s.prev && s.prev[KeyOf(m.id)] == m
    ensures ConfigureOne(s, |s.prev|, m, encoders) == Running(s)
  {
    var k := KeyOf(m.id);
    SameMessageWritesNothing(m, s.types[k], s.motors[k].registers);
    assert s.motors[k := s.motors[k].(registers := s.motors[k].registers)] == s.motors;
    assert s.prev[k := m] == s.prev;
  }

  lemma {:induction false} AllRememberedWriteNothing(s: Registry, motors: seq<Motor>, encoders: set<int>)
    requires Consistent(s) && Remembers(s, motors)
    ensures ConfigureAll(s, |s.prev|, motors, encoders) == Running(s)
    decreases |motors|
  {
    if motors != [] {
      RememberedWritesNothing(s, motors[0], encoders);
      assert forall i | 0 <= i < |motors[1..]| :: motors[1..][i] == motors[i + 1];
      AllRememberedWriteNothing(s, motors[1..], encoders);
    }
  }

  lemma {:induction false} PrevAfterKeySet(prev: map<Key, Motor>, motors: seq<Motor>, registered: set<Key>)
    ensures PrevAfter(prev, motors, registered).Keys == prev.Keys + Ids(Keys(motors)) * registered
    decreases |motors|
  {
    if motors != [] {
      var k := KeyOf(motors[0].id);
      assert Keys(motors)[1..] == Keys(motors[1..]);
      IdsSplit(Keys(motors));
      PrevAfterKeySet(if k in registered then prev[k := motors[0]] else prev, motors[1..], registered);
    }
  }

  lemma PrevAfterSize(prev: map<Key, Motor>, motors: seq<Motor>, registered: set<Key>)
    requires Distinct(Keys(motors)) && Ids(Keys(motors)) <= registered && prev.Keys <= Ids(Keys(motors))
    ensures |PrevAfter(prev, motors, registered)| == |motors|
  {
    PrevAfterKeySet(prev, motors, registered);
    FewIds(Keys(motors));
    assert prev.Keys + Ids(Keys(motors)) * registered == Ids(Keys(motors));
    assert |PrevAfter(prev, motors, registered)| == |PrevAfter(prev, motors, registered).Keys|;
  }

  /** Once a message with distinct, registered motors has been applied, receiving it again changes nothing and
      touches no controller, provided every remembered motor is in it. */
  lemma RepeatedMessageIsIdle(s: Registry, motors: seq<Motor>, encoders: set<int>)
    requires Consistent(s)
    ensures var o := ConfigureAll(s, |motors|, motors, encoders);
            o.Running? && AllRegistered(s, motors) && s.prev.Keys <= Ids(Keys(motors)) ==>
              ConfigureAll(o.s, |motors|, motors, encoders) == o
  {
    if ConfigureAll(s, |motors|, motors, encoders).Running? && AllRegistered(s, motors)
       && s.prev.Keys <= Ids(Keys(motors)) {
      ConfigureAllConsistent(s, |motors|, motors, encoders);
      LoopRemembers(s, |motors|, motors, encoders);
      PrevAfterSize(s.prev, motors, s.motors.Keys);
      PrevAfterKeys(s.prev, motors, s.motors.Keys);
      AllRememberedWriteNothing(ConfigureAll(s, |motors|, motors, encoders).s, motors, encoders);
    }
  }

  // ---------------------------------------------------------------- crashes

  /** The i-th round compares its motor, and with what is remembered by then the comparison crashes. */
  ghost predicate CrashesAt(prev: map<Key, Motor>, registered: set<Key>, n: nat, motors: seq<Motor>, i: nat,
                            encoders: set<int>)
    requires i < |motors|
  {
    var known, k := PrevAfter(prev, motors[..i], registered), KeyOf(motors[i].id);
    && k in registered && |known| == n
    && ComparisonCrashes(if k in known then known[k] else NO_MESSAGE, motors[i], encoders)
  }

  lemma CrashesLater(prev: map<Key, Motor>, registered: set<Key>, n: nat, motors: seq<Motor>, i: nat,
                     encoders: set<int>)
    requires 0 < i < |motors|
    ensures var k := KeyOf(motors[0].id);
            var next := if k in registered then prev[k := motors[0]] else prev;
            CrashesAt(prev, registered, n, motors, i, encoders)
            <==> CrashesAt(next, registered, n, motors[1..], i - 1, encoders)
  {
    assert motors[..i][1..] == motors[1..][..i - 1];
  }

  lemma CrashesFirst(s: Registry, n: nat, motors: seq<Motor>, encoders: set<int>)
    requires Consistent(s) && motors != []
    ensures ConfigureOne(s, n, motors[0], encoders).Crashed?
            <==> CrashesAt(s.prev, s.motors.Keys, n, motors, 0, encoders)
  {
    assert motors[..0] == [];
  }

  /** A message crashes the program exactly when in some round the sizes agree and the comparison finds a new or changed
      remote sensor that is not a registered encoder. */
  lemma {:induction false} CrashesIff(s: Registry, n: nat, motors: seq<Motor>, encoders: set<int>)
    requires Consistent(s)
    ensures ConfigureAll(s, n, motors, encoders).Crashed?
            <==> exists i | 0 <= i < |motors| :: CrashesAt(s.prev, s.motors.Keys, n, motors, i, encoders)
    decreases |motors|
  {
    if motors != [] {
      CrashesFirst(s, n, motors, encoders);
      if ConfigureOne(s, n, motors[0], encoders).Running? {
        var t := ConfigureOne(s, n, motors[0], encoders).s;
        ConfigureOneRemembers(s, n, motors[0], encoders);
        CrashesIff(t, n, motors[1..], encoders);
        forall i | 0 < i < |motors|
          ensures CrashesAt(s.prev, s.motors.Keys, n, motors, i, encoders)
                  <==> CrashesAt(t.prev, t.motors.Keys, n, motors[1..], i - 1, encoders)
        {
          CrashesLater(s.prev, s.motors.Keys, n, motors, i, encoders);
        }
        if i :| 0 <= i < |motors[1..]| && CrashesAt(t.prev, t.motors.Keys, n, motors[1..], i, encoders) {
          assert CrashesAt(s.prev, s.motors.Keys, n, motors, i + 1, encoders);
        }
      }
    }
  }

  // ---------------------------------------------------------------- the controllers over whole runs

  /** Every remembered configuration is in its motor's controller, on the shared registers. */
  ghost predicate ControllersInSync(s: Registry) {
    forall k | k in s.prev && k in s.motors && k in s.types ::
      SharedInSync(s.prev[k], s.types[k], s.motors[k].registers)
  }

  /** Later messages drop no field of a motor, and keep masters masters. */
  ghost predicate CompatibleWith(prev: map<Key, Motor>, motors: seq<Motor>) {
    && (forall i | 0 <= i < |motors| && KeyOf(motors[i].id) in prev ::
          Compatible(prev[KeyOf(motors[i].id)], motors[i]))
    && (forall i, j | 0 <= i < j < |motors| && KeyOf(motors[i].id) == KeyOf(motors[j].id) ::
          Compatible(motors[i], motors[j]))
  }

  lemma ConfigureOneSyncs(s: Registry, n: nat, m: Motor, encoders: set<int>)
    requires Consistent(s) && ControllersInSync(s) && ConfigureOne(s, n, m, encoders).Running?
    requires !Unbased(s, n, m) && (KeyOf(m.id) in s.prev ==> Compatible(s.prev[KeyOf(m.id)], m))
    ensures ControllersInSync(ConfigureOne(s, n, m, encoders).s)
  {
    var k := KeyOf(m.id);
    if k in s.motors {
      var regs, kind := s.motors[k].registers, s.types[k];
      if |s.prev| != n {
        FullUpdateSyncs(m, kind, regs);
      } else {
        DifferentialKeepsSync(s.prev[k], m, kind, regs);
      }
    }
  }

  lemma StillCompatible(prev: map<Key, Motor>, motors: seq<Motor>)
    requires motors != [] && CompatibleWith(prev, motors)
    ensures CompatibleWith(prev, motors[1..])
    ensures CompatibleWith(prev[KeyOf(motors[0].id) := motors[0]], motors[1..])
  {
  }

  lemma {:induction false} ConfigureAllSyncs(s: Registry, n: nat, motors: seq<Motor>, encoders: set<int>)
    requires Consistent(s) && ControllersInSync(s) && ConfigureAll(s, n, motors, encoders).Running?
    requires !SomeUnbased(s, n, motors, encoders) && CompatibleWith(s.prev, motors)
    ensures ControllersInSync(ConfigureAll(s, n, motors, encoders).s)
    decreases |motors|
  {
    if motors != [] {
      var m, rest := motors[0], motors[1..];
      var t := ConfigureOne(s, n, m, encoders).s;
      ConfigureOneSyncs(s, n, m, encoders);
      ConfigureOneRemembers(s, n, m, encoders);
      StillCompatible(s.prev, motors);
      ConfigureAllSyncs(t, n, rest, encoders);
    }
  }

  function Message(e: Event): Option<seq<Motor>> {
    if e.Configure? then e.motors else None
  }

  /** Every previous message came in one of these events. */
  ghost predicate Received(prev: map<Key, Motor>, events: seq<Event>) {
    forall k | k in prev ::
      exists i | 0 <= i < |events| :: Message(events[i]).Some? && prev[k] in Message(events[i]).value
                                      && KeyOf(prev[k].id) == k
  }

  lemma {:induction false} PrevAfterFrom(prev: map<Key, Motor>, motors: seq<Motor>, registered: set<Key>)
    ensures var after := PrevAfter(prev, motors, registered);
            forall k | k in after ::
              (k in prev && after[k] == prev[k]) || (after[k] in motors && KeyOf(after[k].id) == k)
    decreases |motors|
  {
    if motors != [] {
      var k := KeyOf(motors[0].id);
      PrevAfterFrom(if k in registered then prev[k := motors[0]] else prev, motors[1..], registered);
    }
  }

  /** The registers, types and previous messages that `t` keeps from `s`; new motors may have joined. */
  ghost predicate KeepsConfiguration(s: Registry, t: Registry) {
    && t.prev == s.prev && s.motors.Keys <= t.motors.Keys
    && forall k | k in s.motors && k in s.types ::
         k in t.types && t.types[k] == s.types[k] && t.motors[k].registers == s.motors[k].registers
  }

  lemma RegisteredKeeps(s: Registry, k: Key, motorType: int, powerOn: Registers)
    ensures KeepsConfiguration(s, Registered(s, k, motorType, powerOn))
  {
  }

  lemma DrivenKeeps(s: Registry, c: Command)
    ensures KeepsConfiguration(s, Driven(s, c))
  {
  }

  lemma CommandOneKeeps(s: Registry, c: Command, powerOn: Registers)
    ensures KeepsConfiguration(s, CommandOne(s, c, powerOn))
  {
    if Admitted(s, c) {
      RegisteredKeeps(s, KeyOf(c.id), c.motorType, powerOn);
      DrivenKeeps(Registered(s, KeyOf(c.id), c.motorType, powerOn), c);
    }
  }

  lemma {:induction false} CommandAllKeeps(s: Registry, commands: seq<Command>, powerOn: Registers)
    ensures KeepsConfiguration(s, CommandAll(s, commands, powerOn))
    decreases |commands|
  {
    if commands != [] {
      CommandOneKeeps(s, commands[0], powerOn);
      CommandAllKeeps(CommandOne(s, commands[0], powerOn), commands[1..], powerOn);
    }
  }

  lemma KeptInSync(s: Registry, t: Registry)
    requires Consistent(s) && ControllersInSync(s) && KeepsConfiguration(s, t)
    ensures ControllersInSync(t)
  {
  }

  lemma DriveKeepsSync(s: Registry, commands: Option<seq<Command>>, disabled: bool, powerOn: Registers)
    requires Consistent(s) && ControllersInSync(s)
    ensures var t := ValuesStep(s, commands, disabled, powerOn);
            ControllersInSync(t) && t.prev == s.prev
  {
    if commands.Some? {
      CommandAllKeeps(s, commands.value, powerOn);
    }
    KeptInSync(s, ValuesStep(s, commands, disabled, powerOn));
  }

  /** More motors are remembered than the message has, or fewer will be than it has. */
  ghost predicate OffSize(prev: set<Key>, n: nat, keys: seq<Key>, motors: set<Key>) {
    |prev| > n || |prev + Ids(keys) * motors| < n
  }

  lemma StaysOffSize(prev: set<Key>, n: nat, keys: seq<Key>, motors: set<Key>)
    requires keys != [] && OffSize(prev, n, keys, motors)
    ensures |prev| != n && OffSize(Remembered(prev, keys[0], motors), n, keys[1..], motors)
  {
    var total, next := prev + Ids(keys) * motors, Remembered(prev, keys[0], motors);
    IdsSplit(keys);
    SizeGrows(prev, total);
    SizeGrows(prev, next);
    SizeGrows(next + Ids(keys[1..]) * motors, total);
  }

  lemma FullUpdateSyncsOne(s: Registry, n: nat, m: Motor, encoders: set<int>)
    requires Consistent(s) && ControllersInSync(s) && ConfigureOne(s, n, m, encoders).Running?
    requires |s.prev.Keys| != n
    ensures ControllersInSync(ConfigureOne(s, n, m, encoders).s)
  {
    var k := KeyOf(m.id);
    assert |s.prev| == |s.prev.Keys|;
    if k in s.motors {
      FullUpdateSyncs(m, s.types[k], s.motors[k].registers);
    }
  }

  /** With sizes off from the start, every round is a full update. */
  lemma {:induction false} FullUpdatesSync(s: Registry, n: nat, motors: seq<Motor>, encoders: set<int>)
    requires Consistent(s) && ControllersInSync(s) && ConfigureAll(s, n, motors, encoders).Running?
    requires OffSize(s.prev.Keys, n, Keys(motors), s.motors.Keys)
    ensures ControllersInSync(ConfigureAll(s, n, motors, encoders).s)
    decreases |motors|
  {
    if motors != [] {
      var t := ConfigureOne(s, n, motors[0], encoders).s;
      StaysOffSize(s.prev.Keys, n, Keys(motors), s.motors.Keys);
      FullUpdateSyncsOne(s, n, motors[0], encoders);
      RoundRemembers(s, n, motors, encoders);
      FullUpdatesSync(t, n, motors[1..], encoders);
    }
  }

  /** A message fits the registry when the size test can hold for none of its rounds; or else it fills the map of
      previous messages up to its own size, drops no field of a motor, and keeps masters masters. */
  ghost predicate Fits(s: Registry, motors: seq<Motor>) {
    var total := |s.prev.Keys + Ids(Keys(motors)) * s.motors.Keys|;
    |s.prev| <= |motors| <= total ==> total == |motors| && CompatibleWith(s.prev, motors)
  }

  lemma FittingMessageKeepsSync(s: Registry, motors: seq<Motor>, encoders: set<int>)
    requires Consistent(s) && ControllersInSync(s) && ConfigStep(s, Some(motors), encoders).Running?
    requires Fits(s, motors)
    ensures ControllersInSync(ConfigStep(s, Some(motors), encoders).s)
  {
    StoredKeys(s.configs, motors);
    var t := s.(configs := Stored(s.configs, motors));
    if |s.prev| <= |motors| <= |s.prev.Keys + Ids(Keys(motors)) * s.motors.Keys| {
      UnbasedIff(t, motors, encoders);
      ConfigureAllSyncs(t, |motors|, motors, encoders);
    } else {
      FullUpdatesSync(t, |motors|, motors, encoders);
    }
  }

  /** Every configuration message of the run fits the registry it arrives at, whoever sends it. */
  ghost predicate MessagesFit(events: seq<Event>) {
    forall i | 0 <= i < |events| && Message(events[i]).Some? && Run(events[..i]).Running? ::
      Fits(Run(events[..i]).s, Message(events[i]).value)
  }

  lemma MessagesFitBefore(events: seq<Event>)
    requires events != [] && MessagesFit(events)
    ensures MessagesFit(events[..|events| - 1])
  {
    var before := events[..|events| - 1];
    forall i | 0 <= i < |before| && Message(before[i]).Some? && Run(before[..i]).Running?
      ensures Fits(Run(before[..i]).s, Message(before[i]).value)
    {
      assert before[..i] == events[..i];
    }
  }

  lemma TickedKeepsSync(s: Registry)
    requires Consistent(s) && ControllersInSync(s)
    ensures ControllersInSync(Ticked(s))
    ensures forall k | k in Ticked(s).prev :: k in s.prev && Ticked(s).prev[k] == s.prev[k]
  {
  }

  /** Whatever motors are reaped, re-registered and power-cycled in between, and whoever sends the messages: as long as
      each fits, every motor with a remembered configuration has it in its controller, as a full update would have left
      it. */
  lemma {:induction false} FittingMessagesKeepSync(events: seq<Event>)
    requires MessagesFit(events)
    ensures Run(events).Running? ==> ControllersInSync(Run(events).s)
  {
    if events != [] && Run(events).Running? {
      var before, e := events[..|events| - 1], events[|events| - 1];
      MessagesFitBefore(events);
      FittingMessagesKeepSync(before);
      AlwaysConsistent(before);
      match e {
        case Configure(message, encoders) =>
          if message.Some? {
            FittingMessageKeepsSync(Run(before).s, message.value, encoders);
          }
        case Drive(commands, disabled, powerOn) => DriveKeepsSync(Run(before).s, commands, disabled, powerOn);
        case Heartbeat => TickedKeepsSync(Run(before).s);
      }
    }
  }

  lemma ReceivedAfter(prev: map<Key, Motor>, after: map<Key, Motor>, events: seq<Event>)
    requires events != [] && Received(prev, events[..|events| - 1])
    requires forall k | k in after ::
               || (k in prev && after[k] == prev[k])
               || (Message(events[|events| - 1]).Some? && after[k] in Message(events[|events| - 1]).value
                   && KeyOf(after[k].id) == k)
    ensures Received(after, events)
  {
  }

  /** In every run the previous messages are ones that were received. */
  lemma {:induction false} AlwaysReceived(events: seq<Event>)
    requires Run(events).Running?
    ensures Received(Run(events).s.prev, events)
  {
    if events != [] {
      var before, e := events[..|events| - 1], events[|events| - 1];
      AlwaysReceived(before);
      AlwaysConsistent(before);
      var s, t := Run(before).s, Run(events).s;
      match e {
        case Configure(message, encoders) =>
          if message.Some? {
            StoredKeys(s.configs, message.value);
            LoopRemembers(s.(configs := Stored(s.configs, message.value)), |message.value|, message.value, encoders);
            PrevAfterFrom(s.prev, message.value, s.motors.Keys);
          }
        case Drive(commands, disabled, powerOn) =>
          if commands.Some? {
            CommandAllKeeps(s, commands.value, powerOn);
          }
        case Heartbeat =>
      }
      ReceivedAfter(s.prev, t.prev, events);
    }
  }

  /** A sender that never drops a motor or a field of one, and keeps masters masters. */
  ghost predicate SteadySender(events: seq<Event>) {
    forall i, j | 0 <= i <= j < |events| && Message(events[i]).Some? && Message(events[j]).Some? ::
      && Ids(Keys(Message(events[i]).value)) <= Ids(Keys(Message(events[j]).value))
      && forall a, b | a in Message(events[i]).value && b in Message(events[j]).value && KeyOf(a.id) == KeyOf(b.id) ::
           Compatible(a, b)
  }

  lemma KeyIsNamed(motors: seq<Motor>, m: Motor)
    requires m in motors
    ensures KeyOf(m.id) in Ids(Keys(motors))
  {
    var j :| 0 <= j < |motors| && motors[j] == m;
    assert Keys(motors)[j] == KeyOf(m.id);
  }

  lemma OneReceivedIsNamed(prev: map<Key, Motor>, events: seq<Event>, at: nat, k: Key)
    requires at < |events| && Message(events[at]).Some? && k in prev
    requires SteadySender(events) && Received(prev, events[..at])
    ensures k in Ids(Keys(Message(events[at]).value))
    ensures forall b | b in Message(events[at]).value && KeyOf(b.id) == k :: Compatible(prev[k], b)
  {
    var i :| 0 <= i < at && Message(events[..at][i]).Some? && prev[k] in Message(events[..at][i]).value
             && KeyOf(prev[k].id) == k;
    KeyIsNamed(Message(events[i]).value, prev[k]);
    assert Ids(Keys(Message(events[i]).value)) <= Ids(Keys(Message(events[at]).value));
  }

  lemma ReceivedIsNamed(prev: map<Key, Motor>, events: seq<Event>, at: nat)
    requires at < |events| && Message(events[at]).Some?
    requires SteadySender(events) && Received(prev, events[..at])
    ensures prev.Keys <= Ids(Keys(Message(events[at]).value)) && CompatibleWith(prev, Message(events[at]).value)
  {
    var motors := Message(events[at]).value;
    forall k | k in prev
      ensures k in Ids(Keys(motors)) && forall b | b in motors && KeyOf(b.id) == k :: Compatible(prev[k], b)
    {
      OneReceivedIsNamed(prev, events, at, k);
    }
    assert forall i | 0 <= i < |motors| :: motors[i] in motors;
  }

  lemma NamedFits(s: Registry, motors: seq<Motor>)
    requires s.prev.Keys <= Ids(Keys(motors)) && CompatibleWith(s.prev, motors)
    ensures Fits(s, motors)
  {
    FewIds(Keys(motors));
    SizeGrows(s.prev.Keys + Ids(Keys(motors)) * s.motors.Keys, Ids(Keys(motors)));
  }

  /** Under a steady sender every message fits, so the controllers stay in sync. */
  lemma AlwaysInSync(events: seq<Event>)
    requires SteadySender(events)
    ensures MessagesFit(events) && (Run(events).Running? ==> ControllersInSync(Run(events).s))
  {
    forall i | 0 <= i < |events| && Message(events[i]).Some? && Run(events[..i]).Running?
      ensures Fits(Run(events[..i]).s, Message(events[i]).value)
    {
      AlwaysReceived(events[..i]);
      ReceivedIsNamed(Run(events[..i]).s.prev, events, i);
      NamedFits(Run(events[..i]).s, Message(events[i]).value);
    }
    FittingMessagesKeepSync(events);
  }

  // ---------------------------------------------------------------- a run that goes wrong

  function StandStill(id: int): Command {
    Command(id, PERCENT_OUTPUT, Some(0.0), 0, 0.0, 0)
  }

  /** Two motors are configured and registered; then one is configured, and then the other in its place. */
  function Replacement(a: Motor, b: Motor, powerOn: Registers, encoders: set<int>): seq<Event> {
    [Configure(Some([a, b]), encoders)] + [Drive(Some([StandStill(a.id), StandStill(b.id)]), false, powerOn)]
    + [Configure(Some([a]), encoders)] + [Configure(Some([b]), encoders)]
  }

  /** Nothing is registered, so nothing is updated. */
  lemma {:induction false} NothingRegistered(s: Registry, n: nat, motors: seq<Motor>, encoders: set<int>)
    requires s.motors == map[]
    ensures ConfigureAll(s, n, motors, encoders) == Running(s)
    decreases |motors|
  {
    if motors != [] {
      NothingRegistered(s, n, motors[1..], encoders);
    }
  }

  lemma StoredTwo(a: Motor, b: Motor)
    ensures Stored(map[], [a, b]) == map[KeyOf(a.id) := a][KeyOf(b.id) := b]
  {
    var c := map[KeyOf(a.id) := a];
    assert [a, b][1..] == [b] && [b][1..] == [];
    assert Stored(c, [b]) == Stored(c[KeyOf(b.id) := b], []);
  }

  /** A motor that has been created and has no previous message. */
  ghost predicate Fresh(s: Registry, k: Key, powerOn: Registers) {
    k in s.motors && k in s.types && s.types[k] == TalonFX && s.motors[k].registers == powerOn && s.prev == map[]
  }

  lemma StandStillRegisters(s: Registry, id: int, powerOn: Registers)
    requires KeyOf(id) in s.configs && KeyOf(id) < ID_LIMIT && KeyOf(id) !in s.motors && s.prev == map[]
    ensures var t := CommandOne(s, StandStill(id), powerOn);
            && t.configs == s.configs && Fresh(t, KeyOf(id), powerOn) && t.motors.Keys == s.motors.Keys + {KeyOf(id)}
            && forall k | k != KeyOf(id) && Fresh(s, k, powerOn) :: Fresh(t, k, powerOn)
  {
  }

  lemma CommandTwo(s: Registry, c: Command, d: Command, powerOn: Registers)
    ensures CommandAll(s, [c, d], powerOn) == CommandOne(CommandOne(s, c, powerOn), d, powerOn)
  {
    var t := CommandOne(s, c, powerOn);
    assert [c, d][1..] == [d] && [d][1..] == [];
    assert CommandAll(t, [d], powerOn) == CommandAll(CommandOne(t, d, powerOn), [], powerOn);
  }

  lemma RunOfTwo(c: Event, d: Event)
    ensures Run([c] + [d]) == Step(Step(Running(EMPTY), c), d)
  {
    RunSnoc([], c);
    RunSnoc([c], d);
    assert [] + [c] == [c];
  }

  lemma ConfiguredOnly(a: Motor, b: Motor, encoders: set<int>)
    ensures Step(Running(EMPTY), Configure(Some([a, b]), encoders)) ==
            Running(EMPTY.(configs := map[KeyOf(a.id) := a][KeyOf(b.id) := b]))
  {
    NothingRegistered(EMPTY.(configs := Stored(map[], [a, b])), 2, [a, b], encoders);
    StoredTwo(a, b);
  }

  lemma BothDriven(s: Registry, a: int, b: int, powerOn: Registers)
    requires KeyOf(a) in s.configs && KeyOf(b) in s.configs && s.motors == map[] && s.prev == map[]
    requires KeyOf(a) != KeyOf(b) && KeyOf(a) < ID_LIMIT && KeyOf(b) < ID_LIMIT
    ensures var t := CommandAll(s, [StandStill(a), StandStill(b)], powerOn);
            Fresh(t, KeyOf(a), powerOn) && Fresh(t, KeyOf(b), powerOn)
  {
    CommandTwo(s, StandStill(a), StandStill(b), powerOn);
    StandStillRegisters(s, a, powerOn);
    StandStillRegisters(CommandOne(s, StandStill(a), powerOn), b, powerOn);
  }

  lemma BothRegistered(a: Motor, b: Motor, powerOn: Registers, encoders: set<int>)
    requires KeyOf(a.id) != KeyOf(b.id) && KeyOf(a.id) < ID_LIMIT && KeyOf(b.id) < ID_LIMIT
    ensures var o := Run(Replacement(a, b, powerOn, encoders)[..2]);
            && o.Running? && Fresh(o.s, KeyOf(a.id), powerOn) && Fresh(o.s, KeyOf(b.id), powerOn)
  {
    var configure := Configure(Some([a, b]), encoders);
    var drive := Drive(Some([StandStill(a.id), StandStill(b.id)]), false, powerOn);
    assert Replacement(a, b, powerOn, encoders)[..2] == [configure] + [drive];
    RunOfTwo(configure, drive);
    ConfiguredOnly(a, b, encoders);
    BothDriven(EMPTY.(configs := map[KeyOf(a.id) := a][KeyOf(b.id) := b]), a.id, b.id, powerOn);
  }

  lemma SingleMessage(s: Registry, m: Motor, encoders: set<int>)
    ensures ConfigStep(s, Some([m]), encoders) ==
            ConfigureOne(s.(configs := s.configs[KeyOf(m.id) := m]), 1, m, encoders)
  {
    var t := s.(configs := s.configs[KeyOf(m.id) := m]);
    assert [m][1..] == [];
    assert Stored(s.configs, [m]) == Stored(t.configs, []);
    assert ConfigureOne(t, 1, m, encoders).Running? ==>
        ConfigureAll(ConfigureOne(t, 1, m, encoders).s, 1, [], encoders) == ConfigureOne(t, 1, m, encoders);
  }

  lemma FirstIsConfigured(s: Registry, a: Motor, k: Key, powerOn: Registers, encoders: set<int>)
    requires Fresh(s, KeyOf(a.id), powerOn) && Fresh(s, k, powerOn) && k != KeyOf(a.id)
    ensures var o := ConfigStep(s, Some([a]), encoders);
            && o.Running? && o.s.prev == map[KeyOf(a.id) := a] && k in o.s.motors && k in o.s.types
            && o.s.types[k] == TalonFX && o.s.motors[k].registers == powerOn
  {
    SingleMessage(s, a, encoders);
  }

  /** The sizes agree, although the second motor has no previous message. */
  lemma SecondIsCompared(s: Registry, a: Motor, b: Motor, encoders: set<int>)
    requires Consistent(s) && s.prev == map[KeyOf(a.id) := a] && KeyOf(a.id) != KeyOf(b.id) && KeyOf(b.id) in s.motors
    requires !ComparisonCrashes(NO_MESSAGE, b, encoders)
    ensures var o, k := ConfigStep(s, Some([b]), encoders), KeyOf(b.id);
            && o.Running? && k in o.s.prev && o.s.prev[k] == b && k in o.s.motors && o.s.types == s.types
            && forall r | AtDefault(b, r) ::
                 Reg(o.s.motors[k].registers, r) == Reg(s.motors[k].registers, r)
  {
    var t := s.(configs := s.configs[KeyOf(b.id) := b]);
    SingleMessage(s, b, encoders);
    assert |t.prev| == 1 && Unbased(t, 1, b);
    forall r | AtDefault(b, r)
      ensures Reg(ConfigureOne(t, 1, b, encoders).s.motors[KeyOf(b.id)].registers, r) ==
              Reg(t.motors[KeyOf(b.id)].registers, r)
    {
      UnbasedLeavesDefaultsUnwritten(t, 1, b, encoders, r);
    }
  }

  /** The second motor's configuration is remembered at the end of the run, but none of the registers at their defaults
      in it has been written: the controllers are out of sync if one of them held something else. */
  lemma ReplacedMotorIsNotConfigured(a: Motor, b: Motor, powerOn: Registers, encoders: set<int>, r: Register)
    requires KeyOf(a.id) != KeyOf(b.id) && KeyOf(a.id) < ID_LIMIT && KeyOf(b.id) < ID_LIMIT
    requires !ComparisonCrashes(NO_MESSAGE, b, encoders)
    requires AtDefault(b, r) && Shared(r)
    requires FullSetting(b, TalonFX, r).Some? && Reg(powerOn, r) != FullSetting(b, TalonFX, r)
    ensures var o := Run(Replacement(a, b, powerOn, encoders));
            && o.Running? && KeyOf(b.id) in o.s.prev && o.s.prev[KeyOf(b.id)] == b && !ControllersInSync(o.s)
  {
    var events := Replacement(a, b, powerOn, encoders);
    assert events[..3] == events[..2] + [Configure(Some([a]), encoders)];
    assert events == events[..3] + [Configure(Some([b]), encoders)];
    RunSnoc(events[..2], Configure(Some([a]), encoders));
    RunSnoc(events[..3], Configure(Some([b]), encoders));
    BothRegistered(a, b, powerOn, encoders);
    FirstIsConfigured(Run(events[..2]).s, a, KeyOf(b.id), powerOn, encoders);
    AlwaysConsistent(events[..3]);
    SecondIsCompared(Run(events[..3]).s, a, b, encoders);
  }

  /** For instance a gain that was left in the controller. */
  lemma ReplacedMotorKeepsStaleGain(mode: real, gain: real)
    requires mode != SLAVE && gain != 0.0
    ensures var a, b := Motor(1, map[Top(ControllerMode) := mode]), Motor(2, map[Top(ControllerMode) := mode]);
            var o := Run(Replacement(a, b, map[Direct(Kp) := Number(gain)], {}));
            o.Running? && !ControllersInSync(o.s)
  {
    var a, b := Motor(1, map[Top(ControllerMode) := mode]), Motor(2, map[Top(ControllerMode) := mode]);
    assert b.Get(ControllerMode) == mode && b.Get(Kp) == 0.0 && b.Get(FeedbackSensorCanId) == 0.0;
    assert FullSetting(b, TalonFX, Direct(Kp)) == Some(Number(0.0));
    ReplacedMotorIsNotConfigured(a, b, map[Direct(Kp) := Number(gain)], {}, Direct(Kp));
  }

  lemma SecondCrashes(s: Registry, a: Motor, b: Motor, encoders: set<int>)
    requires Consistent(s) && s.prev == map[KeyOf(a.id) := a] && KeyOf(a.id) != KeyOf(b.id) && KeyOf(b.id) in s.motors
    requires ComparisonCrashes(NO_MESSAGE, b, encoders)
    ensures ConfigStep(s, Some([b]), encoders) == Crashed
  {
    SingleMessage(s, b, encoders);
    assert |s.prev| == 1;
  }

  /** The same run ends in a crash when the second motor asks for a remote sensor that is not registered. */
  lemma ReplacedMotorCrashes(a: Motor, b: Motor, powerOn: Registers, encoders: set<int>)
    requires KeyOf(a.id) != KeyOf(b.id) && KeyOf(a.id) < ID_LIMIT && KeyOf(b.id) < ID_LIMIT
    requires ComparisonCrashes(NO_MESSAGE, b, encoders)
    ensures Run(Replacement(a, b, powerOn, encoders)) == Crashed
  {
    var events := Replacement(a, b, powerOn, encoders);
    assert events[..3] == events[..2] + [Configure(Some([a]), encoders)];
    assert events == events[..3] + [Configure(Some([b]), encoders)];
    RunSnoc(events[..2], Configure(Some([a]), encoders));
    RunSnoc(events[..3], Configure(Some([b]), encoders));
    BothRegistered(a, b, powerOn, encoders);
    FirstIsConfigured(Run(events[..2]).s, a, KeyOf(b.id), powerOn, encoders);
    AlwaysConsistent(events[..3]);
    SecondCrashes(Run(events[..3]).s, a, b, encoders);
  }

  /** For instance with no encoder registered at all. */
  lemma UnregisteredSensorCrashes(powerOn: Registers, canId: int)
    requires canId > 0
    ensures var a, b := Motor(1, map[]), Motor(2, map[Top(FeedbackSensorCanId) := canId as real]);
            Run(Replacement(a, b, powerOn, {})) == Crashed
  {
    var a, b := Motor(1, map[]), Motor(2, map[Top(FeedbackSensorCanId) := canId as real]);
    assert b.Get(FeedbackSensorCanId) == canId as real && FeedbackSensorCanId in Touched(NO_MESSAGE, b);
    ReplacedMotorCrashes(a, b, powerOn, {});
  }
}
