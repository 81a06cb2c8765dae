/**
 The latest-value mailbox and the external-control countdown. The receive pump drains the socket into
 one slot per group; the pump stops early when a message happens to have as many bytes as the value of
 EAGAIN, because the byte count it gets back is compared with that error number.
 */
module Network {
  import opened Common

  const EAGAIN := 11
  const CONNECTION_TICKS := 50

  type Bytes = seq<byte>

  /** What the socket has queued: a message with its group, or an error that makes `recv` throw. */
  datatype Arrival = Packet(group: string, bytes: Bytes) | SocketError

  // ---------------------------------------------------------------- specification of the pump

  /** The arrivals a pump stores, out of those that are queued. */
  function StoredPrefix(queue: seq<Arrival>): (n: nat)
    ensures n <= |queue|
  {
    if queue == [] || queue[0].SocketError? || |queue[0].bytes| == EAGAIN then 0
    else 1 + StoredPrefix(queue[1..])
  }

  /** The arrivals a pump takes off the socket: the stored ones and the one that stopped it, if any. */
  function TakenPrefix(queue: seq<Arrival>): (n: nat)
    ensures n <= |queue|
  {
    if queue == [] then 0
    else if queue[0].SocketError? || |queue[0].bytes| == EAGAIN then 1
    else 1 + TakenPrefix(queue[1..])
  }

  /** Storing packets in order: the last one of a group wins. */
  function StoredAll(slots: map<string, Bytes>, packets: seq<Arrival>): map<string, Bytes>
    decreases |packets|
  {
    if packets == [] then slots
    else
      match packets[0]
      case SocketError => StoredAll(slots, packets[1..])
      case Packet(group, bytes) => StoredAll(slots[group := bytes], packets[1..])
  }

  lemma {:induction false} PrefixMeaning(queue: seq<Arrival>)
    ensures StoredPrefix(queue) <= TakenPrefix(queue) <= StoredPrefix(queue) + 1
    ensures forall i | 0 <= i < StoredPrefix(queue) :: queue[i].Packet? && |queue[i].bytes| != EAGAIN
    ensures StoredPrefix(queue) == TakenPrefix(queue) <==> TakenPrefix(queue) == StoredPrefix(queue) == |queue|
    ensures StoredPrefix(queue) < |queue| ==>
              var stop := queue[StoredPrefix(queue)];
              stop.SocketError? || |stop.bytes| == EAGAIN
  {
    if queue != [] && StoredPrefix(queue) > 0 {
      PrefixMeaning(queue[1..]);
    }
  }

  // ---------------------------------------------------------------- the classes

  class Socket {
    var queue: seq<Arrival>

    /** Without waiting: None when nothing is queued. */
    method Recv() returns (r: Option<Arrival>)
      modifies this
      ensures if old(queue) == [] then r == None && queue == []
              else r == Some(old(queue)[0]) && queue == old(queue)[1..]
    {
      if queue == [] {
        return None;
      }
      r := Some(queue[0]);
      queue := queue[1..];
    }
  }

  function CountedDown(t: int): int {
    if t > 0 then t - 1 else t
  }

  class ExternalControlManager {
    var lastConnectionTime: int

    constructor ()
      ensures lastConnectionTime == 0
    {
      lastConnectionTime := 0;
    }

    method ExternalControlMsgReceived()
      modifies this
      ensures lastConnectionTime == CONNECTION_TICKS
    {
      lastConnectionTime := CONNECTION_TICKS;
    }

    method IsExternalControlConnected() returns (connected: bool)
      ensures connected == (lastConnectionTime > 0)
    {
      connected := lastConnectionTime > 0;
    }

    method ProcessHeartbeat()
      modifies this
      ensures lastConnectionTime == CountedDown(old(lastConnectionTime))
    {
      if lastConnectionTime > 0 {
        lastConnectionTime := lastConnectionTime - 1;
      }
    }
  }

  /** The pump has stored the first `stored` arrivals and holds the next one, if there is one. */
  ghost predicate Pumping(all: seq<Arrival>, slots: map<string, Bytes>, stored: nat, msg: Option<Arrival>,
                          rest: seq<Arrival>, now: map<string, Bytes>) {
    && stored <= StoredPrefix(all) && stored <= |all|
    && now == StoredAll(slots, all[..stored])
    && (if msg.Some? then stored < |all| && msg.value == all[stored] && rest == all[stored + 1..]
        else stored == |all| && rest == [])
  }

  lemma {:induction false} StoredSnoc(slots: map<string, Bytes>, packets: seq<Arrival>, p: Arrival)
    requires p.Packet?
    ensures StoredAll(slots, packets + [p]) == StoredAll(slots, packets)[p.group := p.bytes]
    decreases |packets|
  {
    if packets != [] {
      assert (packets + [p])[1..] == packets[1..] + [p];
      StoredSnoc(if packets[0].Packet? then slots[packets[0].group := packets[0].bytes] else slots, packets[1..], p);
    }
  }

  lemma PumpOne(all: seq<Arrival>, slots: map<string, Bytes>, stored: nat, p: Arrival, rest: seq<Arrival>,
                now: map<string, Bytes>)
    requires Pumping(all, slots, stored, Some(p), rest, now) && p.Packet? && |p.bytes| != EAGAIN
    ensures stored + 1 <= StoredPrefix(all)
    ensures now[p.group := p.bytes] == StoredAll(slots, all[..stored + 1])
    ensures rest != [] ==> rest[0] == all[stored + 1] && rest[1..] == all[stored + 2..]
  {
    PrefixMeaning(all);
    assert all[..stored + 1] == all[..stored] + [p];
    StoredSnoc(slots, all[..stored], p);
  }

  lemma PumpStops(all: seq<Arrival>, slots: map<string, Bytes>, stored: nat, msg: Option<Arrival>,
                  rest: seq<Arrival>, now: map<string, Bytes>)
    requires Pumping(all, slots, stored, msg, rest, now)
    requires msg.Some? ==> msg.value.SocketError? || |msg.value.bytes| == EAGAIN
    ensures stored == StoredPrefix(all) && rest == all[TakenPrefix(all)..]
  {
    PrefixMeaning(all);
  }

  class NetworkManager {
    var recvMsgMap: map<string, Bytes>
    const recvSock: Socket
    const external: ExternalControlManager

    constructor (recvSock: Socket)
      ensures this.recvSock == recvSock && recvMsgMap == map[] && fresh(external) && external.lastConnectionTime == 0
    {
      this.recvSock := recvSock;
      recvMsgMap := map[];
      external := new ExternalControlManager();
    }

    /** The packets before the first stop are stored, and each of them restarts the countdown; the stop is lost. */
    method ReceiveMessagePump() returns (readSuccessful: bool)
      modifies `recvMsgMap, recvSock, external
      ensures var queue := old(recvSock.queue);
              && recvMsgMap == StoredAll(old(recvMsgMap), queue[..StoredPrefix(queue)])
              && recvSock.queue == queue[TakenPrefix(queue)..]
              && external.lastConnectionTime ==
                 (if StoredPrefix(queue) > 0 then CONNECTION_TICKS else old(external.lastConnectionTime))
              && readSuccessful ==
                 (&& StoredPrefix(queue) > 0
                  && !(StoredPrefix(queue) < |queue| && queue[StoredPrefix(queue)].SocketError?))
    {
      ghost var all, slots := recvSock.queue, recvMsgMap;
      ghost var stored := 0;
      PrefixMeaning(all);
      var msg := recvSock.Recv();
      if msg.Some? && msg.value.SocketError? {
        return false;
      }
      readSuccessful := msg.Some? && |msg.value.bytes| != EAGAIN;
      while msg.Some? && |msg.value.bytes| != EAGAIN
        invariant msg.Some? ==> msg.value.Packet?
        invariant Pumping(all, slots, stored, msg, recvSock.queue, recvMsgMap)
        invariant external.lastConnectionTime ==
                  if stored > 0 then CONNECTION_TICKS else old(external.lastConnectionTime)
        invariant readSuccessful == (stored > 0 || (msg.Some? && |msg.value.bytes| != EAGAIN))
        decreases |all| - stored
      {
        PumpOne(all, slots, stored, msg.value, recvSock.queue, recvMsgMap);
        recvMsgMap := recvMsgMap[msg.value.group := msg.value.bytes];
        external.ExternalControlMsgReceived();
        stored := stored + 1;
        msg := recvSock.Recv();
        if msg.Some? && msg.value.SocketError? {
          PumpStops(all, slots, stored, msg, recvSock.queue, recvMsgMap);
          return false;
        }
      }
      PumpStops(all, slots, stored, msg, recvSock.queue, recvMsgMap);
    }

    /** Failover puts its own messages into the same slots, without touching the countdown. */
    method PlaceFailoverMessage(group: string, bytes: Bytes) returns (ok: bool)
      modifies `recvMsgMap
      ensures ok && recvMsgMap == old(recvMsgMap)[group := bytes]
    {
      recvMsgMap := recvMsgMap[group := bytes];
      ok := true;
    }

    /** Taking a message empties its slot. */
    method GetMessage(group: string) returns (message: Option<Bytes>)
      modifies `recvMsgMap
      ensures message == if group in old(recvMsgMap) then Some(old(recvMsgMap)[group]) else None
      ensures recvMsgMap == old(recvMsgMap) - {group}
    {
      if group in recvMsgMap {
        message := Some(recvMsgMap[group]);
        recvMsgMap := recvMsgMap - {group};
      } else {
        message := None;
      }
    }
  }

  // ---------------------------------------------------------------- the mailbox over whole runs

  /** The operations on the mailbox and the countdown, in the order in which they take their locks. */
  datatype Op =
    | Pump(queue: seq<Arrival>)
    | Put(group: string, bytes: Bytes)
    | Get(group: string)
    | Tick

  datatype State = State(slots: map<string, Bytes>, countdown: int)

  function Stepped(s: State, op: Op): State {
    match op
    case Pump(queue) =>
      State(StoredAll(s.slots, queue[..StoredPrefix(queue)]),
            if StoredPrefix(queue) > 0 then CONNECTION_TICKS else s.countdown)
    case Put(group, bytes) => s.(slots := s.slots[group := bytes])
    case Get(group) => s.(slots := s.slots - {group})
    case Tick => s.(countdown := CountedDown(s.countdown))
  }

  function Run(ops: seq<Op>): State {
    if ops == [] then State(map[], 0) else Stepped(Run(ops[..|ops| - 1]), ops[|ops| - 1])
  }

  /** The message an operation leaves for a group, looking at nothing before it; None when it says nothing. */
  ghost function LastStored(packets: seq<Arrival>, group: string): Option<Bytes> {
    if packets == [] then None
    else
      var p := packets[|packets| - 1];
      if p.Packet? && p.group == group then Some(p.bytes) else LastStored(packets[..|packets| - 1], group)
  }

  /** The latest message stored to a group since it was last taken, read off the history alone. */
  ghost function LatestUntaken(ops: seq<Op>, group: string): Option<Bytes> {
    if ops == [] then None
    else
      var before := ops[..|ops| - 1];
      match ops[|ops| - 1]
      case Get(g) => if g == group then None else LatestUntaken(before, group)
      case Put(g, bytes) => if g == group then Some(bytes) else LatestUntaken(before, group)
      case Pump(queue) =>
        var last := LastStored(queue[..StoredPrefix(queue)], group);
        if last.Some? then last else LatestUntaken(before, group)
      case Tick => LatestUntaken(before, group)
  }

  function Slot(slots: map<string, Bytes>, group: string): Option<Bytes> {
    if group in slots then Some(slots[group]) else None
  }

  lemma {:induction false} ErrorSnoc(slots: map<string, Bytes>, packets: seq<Arrival>)
    ensures StoredAll(slots, packets + [SocketError]) == StoredAll(slots, packets)
    decreases |packets|
  {
    if packets != [] {
      assert (packets + [SocketError])[1..] == packets[1..] + [SocketError];
      ErrorSnoc(if packets[0].Packet? then slots[packets[0].group := packets[0].bytes] else slots, packets[1..]);
    }
  }

  lemma {:induction false} LastOneWins(slots: map<string, Bytes>, packets: seq<Arrival>, group: string)
    ensures Slot(StoredAll(slots, packets), group) ==
            if LastStored(packets, group).Some? then LastStored(packets, group) else Slot(slots, group)
  {
    if packets != [] {
      var before, p := packets[..|packets| - 1], packets[|packets| - 1];
      LastOneWins(slots, before, group);
      assert packets == before + [p];
      if p.Packet? {
        StoredSnoc(slots, before, p);
      } else {
        ErrorSnoc(slots, before);
      }
    }
  }

  /** In every interleaving of pumps, failover puts, gets and ticks, a get finds exactly the latest message stored to
      its group since the last get that took one. */
  lemma {:induction false} MailboxRefinesHistory(ops: seq<Op>, group: string)
    ensures Slot(Run(ops).slots, group) == LatestUntaken(ops, group)
  {
    if ops != [] {
      MailboxRefinesHistory(ops[..|ops| - 1], group);
      match ops[|ops| - 1] {
        case Pump(queue) =>
          LastOneWins(Run(ops[..|ops| - 1]).slots, queue[..StoredPrefix(queue)], group);
        case _ =>
      }
    }
  }

  /** Ticks since a pump last stored a message from the network. */
  ghost function SinceStored(ops: seq<Op>): Option<nat> {
    if ops == [] then None
    else
      var before := SinceStored(ops[..|ops| - 1]);
      match ops[|ops| - 1]
      case Pump(queue) => if StoredPrefix(queue) > 0 then Some(0) else before
      case Tick => if before.Some? then Some(before.value + 1) else None
      case _ => before
  }

  /** External control counts as connected exactly for fewer than 50 ticks after the last stored network message;
      failover's own messages do not keep it alive. */
  lemma {:induction false} ConnectedIffRecentMessage(ops: seq<Op>)
    ensures 0 <= Run(ops).countdown <= 50
    ensures Run(ops).countdown > 0 <==> SinceStored(ops).Some? && SinceStored(ops).value < 50
    ensures SinceStored(ops).Some? && SinceStored(ops).value < CONNECTION_TICKS ==>
              Run(ops).countdown == CONNECTION_TICKS - SinceStored(ops).value
  {
    if ops != [] {
      ConnectedIffRecentMessage(ops[..|ops| - 1]);
    }
  }

  // ---------------------------------------------------------------- what the stop at EAGAIN costs

  /** What repeated pumps of one backlog store. */
  function Drained(queue: seq<Arrival>): seq<Arrival>
    decreases |queue|
  {
    if queue == [] then []
    else
      queue[..StoredPrefix(queue)]
      + if TakenPrefix(queue) == 0 then [] else Drained(queue[TakenPrefix(queue)..])
  }

  function Storable(queue: seq<Arrival>): seq<Arrival> {
    if queue == [] then []
    else (if queue[0].Packet? && |queue[0].bytes| != EAGAIN then [queue[0]] else []) + Storable(queue[1..])
  }

  lemma {:induction false} StorableAppend(a: seq<Arrival>, b: seq<Arrival>)
    ensures Storable(a + b) == Storable(a) + Storable(b)
  {
    if a == [] {
      assert a + b == b;
    } else {
      ConsAppend(a, b);
      StorableAppend(a[1..], b);
      var first := if a[0].Packet? && |a[0].bytes| != EAGAIN then [a[0]] else [];
      AppendAssociates(first, Storable(a[1..]), Storable(b));
    }
  }

  lemma StorableSplit(queue: seq<Arrival>, n: nat)
    requires n <= |queue|
    ensures Storable(queue) == Storable(queue[..n]) + Storable(queue[n..])
  {
    assert queue == queue[..n] + queue[n..];
    StorableAppend(queue[..n], queue[n..]);
  }

  lemma {:induction false} StorablePrefix(queue: seq<Arrival>)
    ensures Storable(queue[..TakenPrefix(queue)]) == queue[..StoredPrefix(queue)]
  {
    if queue != [] {
      var n := TakenPrefix(queue);
      if StoredPrefix(queue) > 0 {
        StorablePrefix(queue[1..]);
        assert queue[..n][1..] == queue[1..][..n - 1];
        assert queue[..StoredPrefix(queue)] == [queue[0]] + queue[1..][..StoredPrefix(queue[1..])];
      } else {
        assert queue[..n] == [queue[0]];
      }
    }
  }

  /** Pump after pump, a backlog is delivered in order except for its eleven-byte messages, which are lost. */
  lemma {:induction false} OnlyElevenByteMessagesAreLost(queue: seq<Arrival>)
    ensures Drained(queue) == Storable(queue)
    decreases |queue|
  {
    if queue != [] {
      var n := TakenPrefix(queue);
      PrefixMeaning(queue);
      OnlyElevenByteMessagesAreLost(queue[n..]);
      StorablePrefix(queue);
      StorableSplit(queue, n);
    }
  }

  /** A backlog arrives complete exactly when it has no eleven-byte message and no error in it. */
  lemma {:induction false} NothingIsLostIff(queue: seq<Arrival>)
    ensures Storable(queue) == queue <==> forall i | 0 <= i < |queue| :: queue[i].Packet? && |queue[i].bytes| != 11
    ensures |Storable(queue)| <= |queue|
  {
    if queue != [] {
      NothingIsLostIff(queue[1..]);
      if queue[0].Packet? && |queue[0].bytes| != EAGAIN {
        assert Storable(queue)[1..] == Storable(queue[1..]);
        assert Storable(queue) == queue <==> Storable(queue[1..]) == queue[1..] by {
          if Storable(queue[1..]) == queue[1..] {
            assert queue == [queue[0]] + queue[1..];
          }
        }
        assert forall i | 0 < i < |queue| :: queue[i] == queue[1..][i - 1];
      }
    }
  }
}
