/**
 Multipart messages over a ZMQ socket: `send_multipart`, `recv_multipart_n` and the class
 `multipart_t`. The socket is the FIFO its callers see: frames with a "more" flag, atomic
 delivery (nothing to receive until a whole message is queued), and a would-block answer to
 a send that is possible only between messages.
 */
module MultipartSocket {
  import opened Common

  type Part = seq<byte>

  datatype Queued = Queued(part: Part, more: bool)

  // ---------------------------------------------------------------- what a frame queue means

  /** The frames `send_multipart` puts on the wire: every frame but the last announces another. */
  function Framing(parts: seq<Part>, sndmore: bool): (q: seq<Queued>)
    ensures |q| == |parts|
    ensures forall i | 0 <= i < |q| :: q[i] == Queued(parts[i], i + 1 < |parts| || sndmore)
  {
    seq(|parts|, i requires 0 <= i < |parts| => Queued(parts[i], i + 1 < |parts| || sndmore))
  }

  function Payload(q: seq<Queued>): (parts: seq<Part>)
    ensures |parts| == |q|
    ensures forall i | 0 <= i < |q| :: parts[i] == q[i].part
  {
    seq(|q|, i requires 0 <= i < |q| => q[i].part)
  }

  ghost predicate HasMessage(q: seq<Queued>) {
    exists i | 0 <= i < |q| :: !q[i].more
  }

  /** The number of frames of the first message. */
  ghost function MessageLength(q: seq<Queued>): (n: nat)
    requires HasMessage(q)
    ensures 0 < n <= |q| && !q[n - 1].more && forall i | 0 <= i < n - 1 :: q[i].more
  {
    if !q[0].more then 1
    else
      var k :| 0 <= k < |q| && !q[k].more;
      assert !q[1..][k - 1].more;
      1 + MessageLength(q[1..])
  }

  lemma MessageLengthUnique(q: seq<Queued>, n: nat)
    requires 0 < n <= |q| && !q[n - 1].more && forall i | 0 <= i < n - 1 :: q[i].more
    ensures HasMessage(q) && MessageLength(q) == n
  {
  }

  lemma HasMessageAfter(q: seq<Queued>, k: nat)
    requires k <= |q| && forall i | 0 <= i < k :: q[i].more
    ensures HasMessage(q[k..]) <==> HasMessage(q)
    ensures HasMessage(q) ==> k < MessageLength(q)
  {
  }

  lemma ReadOne(q: seq<Queued>, k: nat)
    requires k < |q|
    ensures q[k..][0] == q[k] && q[k..][1..] == q[k + 1..]
    ensures Payload(q[..k + 1]) == Payload(q[..k]) + [q[k].part]
  {
  }

  /** What was sent comes back whole, and what was queued behind it is left alone. */
  lemma SendReceiveRoundTrip(parts: seq<Part>, later: seq<Queued>)
    requires parts != []
    ensures var q := Framing(parts, false) + later;
            && HasMessage(q) && MessageLength(q) == |parts|
            && Payload(q[..|parts|]) == parts && q[|parts|..] == later
  {
    MessageLengthUnique(Framing(parts, false) + later, |parts|);
  }

  /** Two calls, the first with the send-more flag, make one message. */
  lemma SendMoreConcatenates(a: seq<Part>, b: seq<Part>)
    requires b != []
    ensures Framing(a, true) + Framing(b, false) == Framing(a + b, false)
  {
  }

  /** The answer to a receive, and how many frames it takes off the queue. */
  ghost function RecvOutcome(q: seq<Queued>, checkN: bool, n: nat): (RecvResult, nat) {
    if checkN && n == 0 then (TooManyParts, 0)
    else if !HasMessage(q) then (RecvAgain, 0)
    else if checkN && n < MessageLength(q) then (TooManyParts, n)
    else (Received(MessageLength(q)), MessageLength(q))
  }

  /** Of a message that was sent, a receiver that takes at most n parts gets all if they are no more, and otherwise the
      first n and an error. */
  lemma ReceiveAtMost(parts: seq<Part>, later: seq<Queued>, n: nat)
    requires parts != []
    ensures RecvOutcome(Framing(parts, false) + later, true, n) ==
            if |parts| <= n then (Received(|parts|), |parts|) else (TooManyParts, n)
    ensures RecvOutcome(Framing(parts, false) + later, false, n) == (Received(|parts|), |parts|)
  {
    SendReceiveRoundTrip(parts, later);
  }

  function Stream(messages: seq<seq<Part>>): seq<Queued> {
    if messages == [] then [] else Framing(messages[0], false) + Stream(messages[1..])
  }

  ghost function ReceiveAll(q: seq<Queued>): seq<seq<Part>> {
    if !HasMessage(q) then []
    else [Payload(q[..MessageLength(q)])] + ReceiveAll(q[MessageLength(q)..])
  }

  lemma ReceiveOne(parts: seq<Part>, later: seq<Queued>)
    requires parts != []
    ensures ReceiveAll(Framing(parts, false) + later) == [parts] + ReceiveAll(later)
  {
    SendReceiveRoundTrip(parts, later);
  }

  /** Message boundaries survive: a stream of nonempty messages is received as the same list of messages. */
  lemma {:induction false} StreamRoundTrip(messages: seq<seq<Part>>)
    requires forall i | 0 <= i < |messages| :: messages[i] != []
    ensures ReceiveAll(Stream(messages)) == messages
  {
    if messages != [] {
      StreamRoundTrip(messages[1..]);
      ReceiveOne(messages[0], Stream(messages[1..]));
    }
  }

  // ---------------------------------------------------------------- the socket and the free functions

  datatype SendResult = Sent(count: nat) | SendAgain
  datatype RecvResult = Received(count: nat) | RecvAgain | TooManyParts

  class Socket {
    var queue: seq<Queued>
    var sending: bool  // the last frame sent announced another
    var full: bool     // a new message would block

    method Send(part: Part, more: bool) returns (ok: bool)
      modifies this
      ensures ok == old(sending || !full)
      ensures queue == old(queue) + (if ok then [Queued(part, more)] else [])
      ensures sending == if ok then more else old(sending)
      ensures full == old(full)
    {
      ok := sending || !full;
      if ok {
        queue := queue + [Queued(part, more)];
        sending := more;
      }
    }

    method Recv() returns (r: Option<Queued>)
      modifies `queue
      ensures r.Some? == HasMessage(old(queue))
      ensures r.Some? ==> r.value == old(queue)[0] && queue == old(queue)[1..]
      ensures r.None? ==> queue == old(queue)
    {
      var i := 0;
      while i < |queue| && queue[i].more
        invariant i <= |queue|
        invariant forall j | 0 <= j < i :: queue[j].more
      {
        i := i + 1;
      }
      if i == |queue| {
        return None;
      }
      r := Some(queue[0]);
      queue := queue[1..];
    }
  }

  /** All parts or, when the socket would block before the first one, none of them. */
  method SendMultipart(s: Socket, msgs: seq<Part>, sndmore: bool) returns (r: SendResult)
    modifies s
    ensures s.full == old(s.full)
    ensures r == if msgs != [] && old(s.full && !s.sending) then SendAgain else Sent(|msgs|)
    ensures s.queue == old(s.queue) + if r.Sent? then Framing(msgs, sndmore) else []
    ensures s.sending == if r == SendAgain || msgs == [] then old(s.sending) else sndmore
  {
    var it := 0;
    while it < |msgs|
      invariant it <= |msgs|
      invariant s.full == old(s.full)
      invariant s.queue == old(s.queue) + Framing(msgs, sndmore)[..it]
      invariant it == 0 ==> s.sending == old(s.sending)
      invariant it > 0 ==> s.sending == (it < |msgs| || sndmore) && !old(s.full && !s.sending)
    {
      var next := it + 1;
      var sent := s.Send(msgs[it], next < |msgs| || sndmore);
      if !sent {
        assert it == 0;  // the library asserts this too
        return SendAgain;
      }
      it := next;
    }
    return Sent(it);
  }

  /** The parts `out` have been received from the front of q, and each announced another. */
  ghost predicate Receiving(q: seq<Queued>, out: seq<Part>, rest: seq<Queued>) {
    && |out| <= |q| && rest == q[|out|..] && out == Payload(q[..|out|])
    && (forall i | 0 <= i < |out| :: q[i].more)
    && (|out| > 0 ==> HasMessage(q))
  }

  /** One more part, or none when no whole message is queued, which can only be before the first. */
  lemma ReceiveRound(q: seq<Queued>, out: seq<Part>, rest: seq<Queued>)
    requires Receiving(q, out, rest)
    ensures HasMessage(rest) <==> HasMessage(q)
    ensures HasMessage(rest) ==>
              var next := out + [rest[0].part];
              && |next| <= |q| && rest[1..] == q[|next|..] && next == Payload(q[..|next|])
              && (if rest[0].more then Receiving(q, next, rest[1..]) else MessageLength(q) == |next|)
    ensures HasMessage(q) ==> |out| < MessageLength(q)
  {
    HasMessageAfter(q, |out|);
    if HasMessage(rest) {
      ReadOne(q, |out|);
      if !rest[0].more {
        MessageLengthUnique(q, |out| + 1);
      }
    }
  }

  /** With `checkN` at most `n` parts are taken; a longer message is an error that leaves its tail queued. */
  method RecvMultipartN(s: Socket, checkN: bool, n: nat) returns (r: RecvResult, out: seq<Part>)
    modifies s`queue
    ensures RecvOutcome(old(s.queue), checkN, n) == (r, |out|) && |out| <= |old(s.queue)|
    ensures out == Payload(old(s.queue)[..|out|]) && s.queue == old(s.queue)[|out|..]
  {
    ghost var q := s.queue;
    out := [];
    r := TooManyParts;
    while !checkN || |out| < n
      invariant Receiving(q, out, s.queue)
      invariant checkN ==> |out| <= n
      decreases |q| - |out|
    {
      ReceiveRound(q, out, s.queue);
      var msg := s.Recv();
      if msg.None? {
        assert |out| == 0;  // the library asserts this too
        r := RecvAgain;
        break;
      }
      out := out + [msg.value.part];
      if !msg.value.more {
        r := Received(|out|);
        break;
      }
    }
    if r == TooManyParts {
      ReceiveRound(q, out, s.queue);
    }
  }

  // ---------------------------------------------------------------- multipart_t

  class Multipart {
    var parts: seq<Part>

    method Push(part: Part)
      modifies this
      ensures parts == [part] + old(parts)
    {
      parts := [part] + parts;
    }

    method Add(part: Part)
      modifies this
      ensures parts == old(parts) + [part]
    {
      parts := parts + [part];
    }

    /** From the front; as with `std::deque::front`, the deque must not be empty. */
    method Pop() returns (part: Part)
      requires parts != []
      modifies this
      ensures [part] + parts == old(parts)
    {
      part := parts[0];
      parts := parts[1..];
    }

    method Remove() returns (part: Part)
      requires parts != []
      modifies this
      ensures parts + [part] == old(parts)
    {
      part := parts[|parts| - 1];
      parts := parts[..|parts| - 1];
    }

    /** Moving a multipart into itself would never end, hence `other != this`. */
    method Append(other: Multipart)
      requires other != this
      modifies this, other
      ensures parts == old(parts) + old(other.parts) && other.parts == []
    {
      while other.parts != []
        invariant parts + other.parts == old(parts) + old(other.parts)
        decreases |other.parts|
      {
        var part := other.Pop();
        Add(part);
      }
    }

    method Prepend(other: Multipart)
      requires other != this
      modifies this, other
      ensures parts == old(other.parts) + old(parts) && other.parts == []
    {
      while other.parts != []
        invariant other.parts + parts == old(other.parts) + old(parts)
        decreases |other.parts|
      {
        var part := other.Remove();
        Push(part);
      }
    }

    /** Sending empties the list. A socket that would block answers false after the first part has
        already been popped: that part is gone, which the caller cannot see. */
    method Send(s: Socket) returns (ok: bool)
      modifies this, s
      ensures ok == (old(parts) == [] || !old(s.full) || old(s.sending))
      ensures s.queue == old(s.queue) + if ok then Framing(old(parts), false) else []
      ensures parts == if ok then [] else old(parts)[1..]
    {
      ghost var all := parts;
      ghost var sent := 0;
      var more := |parts| > 0;
      while more
        invariant sent <= |all| && parts == all[sent..] && more == (parts != [])
        invariant s.queue == old(s.queue) + Framing(all, false)[..sent]
        invariant s.full == old(s.full)
        invariant sent == 0 ==> s.sending == old(s.sending)
        invariant sent > 0 ==> (!old(s.full) || old(s.sending)) && s.sending == more
        decreases |parts|
      {
        var part := Pop();
        more := |parts| > 0;
        var taken := s.Send(part, more);
        if !taken {
          return false;
        }
        sent := sent + 1;
      }
      parts := [];
      return true;
    }

    method Recv(s: Socket) returns (ok: bool)
      modifies this, s`queue
      ensures ok == HasMessage(old(s.queue))
      ensures ok ==> var n := MessageLength(old(s.queue));
                     parts == Payload(old(s.queue)[..n]) && s.queue == old(s.queue)[n..]
      ensures !ok ==> parts == [] && s.queue == old(s.queue)
    {
      ghost var q := s.queue;
      parts := [];
      var more, delivered := true, true;
      while more && delivered
        invariant if more then Receiving(q, parts, s.queue)
                  else |parts| <= |q| && s.queue == q[|parts|..] && parts == Payload(q[..|parts|])
                       && HasMessage(q) && MessageLength(q) == |parts|
        invariant !delivered ==> more && !HasMessage(q)
        decreases |q| - |parts|, delivered
      {
        ReceiveRound(q, parts, s.queue);
        var message := s.Recv();
        if message.None? {
          delivered := false;
        } else {
          more := message.value.more;
          Add(message.value.part);
        }
      }
      return delivered;
    }
  }
}
