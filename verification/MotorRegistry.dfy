/**
 The motor registry: the configuration cache, the registered controllers with their types and
 heartbeat counters, and the reaper that erases from the heartbeat map while iterating over it.
 The classes hold the maps; `Registry` is their value, over which runs are stated.
 */
module MotorRegistry {
  import opened Common
  import opened TalonConfig

  /** Maps are keyed by uint16_t; an id from a message is truncated on the way in. */
  type Key = k: int | 0 <= k < UINT16_COUNT

  function KeyOf(id: int): Key {
    id % UINT16_COUNT
  }

  const MAX_HEARTBEAT_TICKS := 250
  const ID_LIMIT := 64

  const PERCENT_OUTPUT := 0

  /** What a controller was last told to do. */
  datatype Demand = Output(mode: int, value: real, feedforward: real) | Following(master: Key)

  const NEUTRAL := Output(PERCENT_OUTPUT, 0.0, 0.0)

  datatype Talon = Talon(kind: TalonKind, registers: Registers, demand: Demand)

  datatype Registry = Registry(
    motors: map<Key, Talon>,
    types: map<Key, TalonKind>,
    heartbeats: map<Key, int>,
    configs: map<Key, Motor>,
    prev: map<Key, Motor>)

  ghost predicate Consistent(s: Registry) {
    && s.prev.Keys <= s.motors.Keys
    && s.motors.Keys == s.types.Keys == s.heartbeats.Keys
    && s.motors.Keys <= s.configs.Keys
    && (forall k | k in s.heartbeats :: 1 <= s.heartbeats[k] <= MAX_HEARTBEAT_TICKS && k < ID_LIMIT)
    && (forall k | k in s.motors :: s.types[k] == s.motors[k].kind)
  }

  const EMPTY := Registry(map[], map[], map[], map[], map[])

  // ---------------------------------------------------------------- specification of the operations

  function KindOf(motorType: int): Option<TalonKind> {
    if motorType == 0 then Some(TalonFX) else if motorType == 1 then Some(TalonSRX) else None
  }

  /** Whether a registration gives the motor a fresh heartbeat. */
  predicate Registers?(s: Registry, id: Key, motorType: int) {
    id < ID_LIMIT && (id in s.motors || KindOf(motorType).Some?)
  }

  function Registered(s: Registry, id: Key, motorType: int, powerOn: Registers): Registry {
    if !Registers?(s, id, motorType) then s
    else
      var t := if id in s.motors then s
               else s.(motors := s.motors[id := Talon(KindOf(motorType).value, powerOn, NEUTRAL)],
                       types := s.types[id := KindOf(motorType).value]);
      t.(heartbeats := t.heartbeats[id := MAX_HEARTBEAT_TICKS])
  }

  /** Ids are keys as they are, and wrap around at 65536. */
  lemma KeysWrap(id: int)
    ensures 0 <= id < 65536 ==> KeyOf(id) == id
    ensures KeyOf(id + 65536) == KeyOf(id)
  {
  }

  /** A new motor joins under an id below 64 with the controller its type names, 0 for a Falcon and 1 for a Talon SRX,
      with its power-on registers, standing still; any other type is refused, and so is any larger id. */
  lemma NewMotor(s: Registry, id: Key, motorType: int, powerOn: Registers)
    requires id !in s.motors
    ensures var t, accepted := Registered(s, id, motorType, powerOn), id < 64 && (motorType == 0 || motorType == 1);
            if accepted then
              && t.motors.Keys == s.motors.Keys + {id}
              && t.motors[id] == Talon(if motorType == 0 then TalonFX else TalonSRX, powerOn, NEUTRAL)
              && t.types == s.types[id := t.motors[id].kind] && t.heartbeats == s.heartbeats[id := 250]
            else t == s
    ensures forall k | k in s.motors :: k in Registered(s, id, motorType, powerOn).motors
                                        && Registered(s, id, motorType, powerOn).motors[k] == s.motors[k]
  {
  }

  /** A motor that is there keeps everything, whatever type is asked for, and only gets a full heartbeat. */
  lemma KnownMotor(s: Registry, id: Key, motorType: int, powerOn: Registers)
    requires id in s.motors && id < 64
    ensures Registered(s, id, motorType, powerOn) == s.(heartbeats := s.heartbeats[id := 250])
  {
  }

  ghost function Expired(heartbeats: map<Key, int>, bound: int): set<Key> {
    set k | k in heartbeats && k < bound && heartbeats[k] <= 1
  }

  /** One tick for the entries below `bound`. */
  ghost function TickBelow(heartbeats: map<Key, int>, bound: int): map<Key, int> {
    map k | k in heartbeats && (k < bound ==> heartbeats[k] > 1) ::
      if k < bound then heartbeats[k] - 1 else heartbeats[k]
  }

  /** The registry when the reaper has passed the entries below `bound`. */
  ghost function TickedBelow(s: Registry, bound: int): Registry {
    var gone := Expired(s.heartbeats, bound);
    Registry(s.motors - gone, s.types - gone, TickBelow(s.heartbeats, bound), s.configs - gone, s.prev - gone)
  }

  /** Every counter loses one; the motors whose counter runs out are gone from every map. */
  ghost function Ticked(s: Registry): Registry {
    TickedBelow(s, UINT16_COUNT)
  }

  function Without(s: Registry, k: Key): Registry {
    Registry(s.motors - {k}, s.types - {k}, s.heartbeats - {k}, s.configs - {k}, s.prev - {k})
  }

  lemma RemoveOneMore<V>(m: map<Key, V>, gone: set<Key>, k: Key)
    ensures m - (gone + {k}) == m - gone - {k}
  {
  }

  function TickedEntry(s: Registry, k: Key): Registry
    requires k in s.heartbeats
  {
    if s.heartbeats[k] <= 1 then Without(s, k) else s.(heartbeats := s.heartbeats[k := s.heartbeats[k] - 1])
  }

  lemma TickOne(s: Registry, k: Key)
    requires k in s.heartbeats
    ensures k in TickedBelow(s, k).heartbeats && TickedBelow(s, k + 1) == TickedEntry(TickedBelow(s, k), k)
  {
    var h, gone := s.heartbeats, Expired(s.heartbeats, k);
    if h[k] <= 1 {
      assert Expired(h, k + 1) == gone + {k};
      RemoveOneMore(s.motors, gone, k);
      RemoveOneMore(s.types, gone, k);
      RemoveOneMore(s.configs, gone, k);
      RemoveOneMore(s.prev, gone, k);
      assert TickBelow(h, k + 1) == TickBelow(h, k) - {k};
    } else {
      assert Expired(h, k + 1) == gone;
      assert TickBelow(h, k + 1) == TickBelow(h, k)[k := h[k] - 1];
    }
  }

  function PositionOf(it: Option<Key>): nat {
    if it.Some? then it.value else UINT16_COUNT
  }

  /** The order of iteration of a std::map: the smallest key from `from` on. */
  function NextKey(keys: set<Key>, from: nat): (next: Option<Key>)
    requires from <= UINT16_COUNT
    ensures next.None? ==> forall k | k in keys :: k < from
    ensures next.Some? ==> next.value in keys && from <= next.value
    ensures next.Some? ==> forall k | k in keys :: k < from || next.value <= k
    decreases UINT16_COUNT - from
  {
    if from == UINT16_COUNT then None
    else if from in keys then Some(from)
    else NextKey(keys, from + 1)
  }

  /** No entry lies between an erased or ticked one and its successor. */
  lemma SkipGap(s: Registry, from: nat)
    requires from <= UINT16_COUNT
    ensures var it := NextKey(TickedBelow(s, from).heartbeats.Keys, from);
            && TickedBelow(s, from) == TickedBelow(s, PositionOf(it))
            && (it.Some? ==> it.value in s.heartbeats)
  {
    var h, to := s.heartbeats, PositionOf(NextKey(TickedBelow(s, from).heartbeats.Keys, from));
    assert forall k | k in h && from <= k :: k in TickBelow(h, from);
    assert TickBelow(h, from) == TickBelow(h, to);
    assert Expired(h, from) == Expired(h, to);
  }

  function Stored(configs: map<Key, Motor>, motors: seq<Motor>): map<Key, Motor>
    decreases |motors|
  {
    if motors == [] then configs
    else Stored(configs[KeyOf(motors[0].id) := motors[0]], motors[1..])
  }

  /** What is stored for a key is the last motor of the message with that key, or else what was there before. */
  lemma {:induction false} LastOneIsStored(configs: map<Key, Motor>, motors: seq<Motor>, k: Key)
    ensures k in Stored(configs, motors) <==> k in configs || exists i | 0 <= i < |motors| :: KeyOf(motors[i].id) == k
    ensures (forall i | 0 <= i < |motors| :: KeyOf(motors[i].id) != k) && k in configs ==>
              Stored(configs, motors)[k] == configs[k]
    ensures forall i | 0 <= i < |motors| && KeyOf(motors[i].id) == k ::
              (forall j | i < j < |motors| :: KeyOf(motors[j].id) != k) ==> Stored(configs, motors)[k] == motors[i]
    decreases |motors|
  {
    if motors != [] {
      var rest := motors[1..];
      LastOneIsStored(configs[KeyOf(motors[0].id) := motors[0]], rest, k);
      assert forall i | 0 < i < |motors| :: motors[i] == rest[i - 1];
      assert forall i | 0 <= i < |rest| :: rest[i] == motors[i + 1];
    }
  }

  // ---------------------------------------------------------------- MotorConfigManager

  class MotorConfigManager {
    var motorMsgs: map<Key, Motor>
    var prevMotorMsgs: map<Key, Motor>

    constructor ()
      ensures motorMsgs == map[] && prevMotorMsgs == map[]
    {
      motorMsgs, prevMotorMsgs := map[], map[];
    }

    method SetMotorsConfigMsg(motors: seq<Motor>)
      modifies `motorMsgs
      ensures motorMsgs == Stored(old(motorMsgs), motors)
    {
      for i := 0 to |motors|
        invariant Stored(motorMsgs, motors[i..]) == Stored(old(motorMsgs), motors)
      {
        motorMsgs := motorMsgs[KeyOf(motors[i].id) := motors[i]];
        assert motors[i..][1..] == motors[i + 1..];
      }
    }

    method SetPrevMotorConfigMsg(id: Key, m: Motor)
      modifies `prevMotorMsgs
      ensures prevMotorMsgs == old(prevMotorMsgs)[id := m]
    {
      prevMotorMsgs := prevMotorMsgs[id := m];
    }

    method DeleteMotor(id: Key)
      modifies this
      ensures motorMsgs == old(motorMsgs) - {id} && prevMotorMsgs == old(prevMotorMsgs) - {id}
    {
      if id in motorMsgs {
        motorMsgs := motorMsgs - {id};
      }
      if id in prevMotorMsgs {
        prevMotorMsgs := prevMotorMsgs - {id};
      }
    }
  }

  // ---------------------------------------------------------------- MotorManager

  lemma NothingTicked(s: Registry)
    ensures TickedBelow(s, 0) == s
  {
  }

  /** The reaper has passed the entries before `it`, which is the next one. */
  ghost predicate Reaped(s: Registry, now: Registry, it: Option<Key>) {
    now == TickedBelow(s, PositionOf(it)) && (it.Some? ==> it.value in s.heartbeats)
  }

  lemma ReapStarts(s: Registry)
    ensures Reaped(s, s, NextKey(s.heartbeats.Keys, 0))
  {
    NothingTicked(s);
    SkipGap(s, 0);
  }

  lemma ReapRound(s: Registry, now: Registry, k: Key)
    requires Reaped(s, now, Some(k))
    ensures k in now.heartbeats
    ensures var after := TickedEntry(now, k);
            Reaped(s, after, NextKey(after.heartbeats.Keys, k + 1))
  {
    TickOne(s, k);
    SkipGap(s, k + 1);
  }

  class MotorManager {
    var motors: map<Key, Talon>
    var types: map<Key, TalonKind>
    var heartbeats: map<Key, int>
    const configs: MotorConfigManager

    ghost function Value(): Registry
      reads this, configs
    {
      Registry(motors, types, heartbeats, configs.motorMsgs, configs.prevMotorMsgs)
    }

    constructor (configs: MotorConfigManager)
      requires configs.motorMsgs == map[] && configs.prevMotorMsgs == map[]
      ensures this.configs == configs && Value() == EMPTY
    {
      this.configs := configs;
      motors, types, heartbeats := map[], map[], map[];
    }

    method RegisterMotor(id: Key, motorType: int, powerOn: Registers)
      modifies this
      ensures Value() == Registered(old(Value()), id, motorType, powerOn)
    {
      if id < ID_LIMIT {
        if id !in motors {
          match KindOf(motorType) {
            case Some(kind) =>
              motors := motors[id := Talon(kind, powerOn, NEUTRAL)];
              types := types[id := kind];
            case None =>
              return;
          }
        }
        heartbeats := heartbeats[id := MAX_HEARTBEAT_TICKS];
      }
    }

    method DeleteMotor(id: Key)
      modifies this, configs
      ensures motors == old(motors) - {id} && types == old(types) - {id} && heartbeats == old(heartbeats)
      ensures configs.motorMsgs == old(configs.motorMsgs) - {id}
      ensures configs.prevMotorMsgs == old(configs.prevMotorMsgs) - {id}
    {
      if id in motors {
        motors := motors - {id};
      }
      if id in types {
        types := types - {id};
      }
      configs.DeleteMotor(id);
    }

    method TickEntry(id: Key)
      requires id in heartbeats
      modifies this, configs
      ensures Value() == TickedEntry(old(Value()), id)
    {
      ghost var h := heartbeats;
      heartbeats := heartbeats[id := heartbeats[id] - 1];
      if heartbeats[id] <= 0 {
        DeleteMotor(id);
        heartbeats := heartbeats - {id};
        assert heartbeats == h - {id};
      }
    }

    /** The iterator moves past each entry once, erased or not. */
    method ProcessHeartbeat()
      modifies this, configs
      ensures Value() == Ticked(old(Value()))
    {
      ghost var s := Value();
      var it := NextKey(heartbeats.Keys, 0);
      ReapStarts(s);
      while it.Some?
        invariant Reaped(s, Value(), it)
        decreases UINT16_COUNT - PositionOf(it)
      {
        var current: nat := it.value;
        ReapRound(s, Value(), current);
        TickEntry(current);
        it := NextKey(heartbeats.Keys, current + 1);
      }
    }
  }
}
