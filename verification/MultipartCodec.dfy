/**
 The ZMQ multipart codec: `encode` sizes its output in one pass and fills it in a
 second one, `decode` walks the bytes with a bounds check before every read.
 Both are proved against a wire grammar: a message is a concatenation of frames,
 each with its size in one byte (Short) or in 0xFF and four bytes (Long).
 */
module MultipartCodec {
  import opened Common

  datatype Frame = Short(data: seq<byte>) | Long(data: seq<byte>)

  datatype EncodeError = PartTooLarge
  datatype DecodeError = OverflowReadingSize | OverflowReadingPart

  predicate FrameOk(f: Frame) {
    match f
    case Short(d) => |d| < UINT8_MAX
    case Long(d) => |d| <= UINT32_MAX
  }

  ghost predicate AllOk(fs: seq<Frame>) {
    forall i | 0 <= i < |fs| :: FrameOk(fs[i])
  }

  /** Shifting right by 8 * k and masking is dividing by 256^k modulo 256. */
  function NetworkOrder(value: nat): seq<byte>
    requires value <= UINT32_MAX
  {
    [(value / 0x100_0000) as byte, (value / 0x1_0000 % 0x100) as byte, (value / 0x100 % 0x100) as byte,
     (value % 0x100) as byte]
  }

  function ReadU32NetworkOrder(buf: seq<byte>): (value: nat)
    requires |buf| == 4
    ensures value <= UINT32_MAX
  {
    buf[0] as nat * 0x100_0000 + buf[1] as nat * 0x1_0000 + buf[2] as nat * 0x100 + buf[3] as nat
  }

  function Header(f: Frame): (h: seq<byte>)
    requires FrameOk(f)
    ensures |h| == if f.Short? then 1 else 5
  {
    if f.Short? then [|f.data| as byte] else [UINT8_MAX as byte] + NetworkOrder(|f.data|)
  }

  function FrameBytes(f: Frame): seq<byte>
    requires FrameOk(f)
  {
    Header(f) + f.data
  }

  function Wire(fs: seq<Frame>): seq<byte>
    requires AllOk(fs)
  {
    if fs == [] then [] else FrameBytes(fs[0]) + Wire(fs[1..])
  }

  function Data(fs: seq<Frame>): (parts: seq<seq<byte>>)
    ensures |parts| == |fs|
    ensures forall i | 0 <= i < |fs| :: parts[i] == fs[i].data
  {
    seq(|fs|, i requires 0 <= i < |fs| => fs[i].data)
  }

  ghost predicate Encodable(parts: seq<seq<byte>>) {
    forall i | 0 <= i < |parts| :: |parts[i]| <= UINT32_MAX
  }

  /** The frame the encoder chooses for a part: the one-byte size whenever it fits. */
  function FrameOf(part: seq<byte>): Frame {
    if |part| < UINT8_MAX then Short(part) else Long(part)
  }

  function Frames(parts: seq<seq<byte>>): (fs: seq<Frame>)
    ensures |fs| == |parts|
    ensures forall i | 0 <= i < |parts| :: fs[i] == FrameOf(parts[i])
  {
    seq(|parts|, i requires 0 <= i < |parts| => FrameOf(parts[i]))
  }

  function Encoding(parts: seq<seq<byte>>): seq<byte>
    requires Encodable(parts)
  {
    Wire(Frames(parts))
  }

  /** What `decode` has written to its output when it returns or throws. */
  datatype Decoded = Decoded(frames: seq<Frame>, error: Option<DecodeError>)

  function FirstFrame(s: seq<byte>): Result<Frame, DecodeError>
    requires s != []
  {
    if s[0] as int != UINT8_MAX then
      if |s| - 1 < s[0] as int then Err(OverflowReadingPart) else Ok(Short(s[1..1 + s[0] as int]))
    else if |s| < 5 then Err(OverflowReadingSize)
    else
      var size := ReadU32NetworkOrder(s[1..5]);
      if |s| - 5 < size then Err(OverflowReadingPart) else Ok(Long(s[5..5 + size]))
  }

  function FrameSize(f: Frame): nat {
    |f.data| + if f.Short? then 1 else 5
  }

  function Prefixed(fs: seq<Frame>, d: Decoded): Decoded {
    Decoded(fs + d.frames, d.error)
  }

  function DecodeFrom(s: seq<byte>): Decoded {
    if s == [] then Decoded([], None)
    else
      match FirstFrame(s)
      case Err(e) => Decoded([], Some(e))
      case Ok(f) =>
        Prefixed([f], DecodeFrom(s[FrameSize(f)..]))
  }

  // ---------------------------------------------------------------- the two loops

  method WriteNetworkOrder(buf: array<byte>, at: nat, value: nat)
    requires value <= UINT32_MAX
    requires at + 4 <= buf.Length
    modifies buf
    ensures buf[..] == old(buf[..at]) + NetworkOrder(value) + old(buf[at + 4..])
  {
    buf[at] := (value / 0x100_0000) as byte;
    buf[at + 1] := (value / 0x1_0000 % 0x100) as byte;
    buf[at + 2] := (value / 0x100 % 0x100) as byte;
    buf[at + 3] := (value % 0x100) as byte;
    assert buf[at..at + 4] == NetworkOrder(value);
    assert buf[..] == buf[..at] + buf[at..at + 4] + buf[at + 4..];
  }

  method Memcpy(dest: array<byte>, at: nat, src: seq<byte>)
    requires at + |src| <= dest.Length
    modifies dest
    ensures dest[..] == old(dest[..at]) + src + old(dest[at + |src|..])
  {
    forall j | 0 <= j < |src| {
      dest[at + j] := src[j];
    }
  }

  lemma {:induction false} WireAppend(a: seq<Frame>, b: seq<Frame>)
    requires AllOk(a) && AllOk(b)
    ensures AllOk(a + b) && Wire(a + b) == Wire(a) + Wire(b)
  {
    if a == [] {
      assert a + b == b;
    } else {
      ConsAppend(a, b);
      WireAppend(a[1..], b);
      AppendAssociates(FrameBytes(a[0]), Wire(a[1..]), Wire(b));
    }
  }

  lemma EncodingSnoc(parts: seq<seq<byte>>, i: nat)
    requires i < |parts| && |parts[i]| <= UINT32_MAX && Encodable(parts[..i])
    ensures Encodable(parts[..i + 1])
    ensures Encoding(parts[..i + 1]) == Encoding(parts[..i]) + FrameBytes(FrameOf(parts[i]))
  {
    var last := [FrameOf(parts[i])];
    assert Frames(parts[..i + 1]) == Frames(parts[..i]) + last;
    WireAppend(Frames(parts[..i]), last);
    assert Wire(last) == FrameBytes(last[0]) + Wire(last[1..]);
  }

  /** First pass: the size of the message to allocate, or the error for a part that does not fit 32 bits. */
  method CheckSizes(parts: seq<seq<byte>>) returns (r: Result<nat, EncodeError>)
    ensures r.Ok? <==> Encodable(parts)
    ensures r.Ok? ==> r.value == |Encoding(parts)|
  {
    var size := 0;
    for i := 0 to |parts|
      invariant Encodable(parts[..i])
      invariant size == |Encoding(parts[..i])|
    {
      if |parts[i]| > UINT32_MAX {
        return Err(PartTooLarge);
      }
      EncodingSnoc(parts, i);
      size := size + |parts[i]| + if |parts[i]| < UINT8_MAX then 1 else 5;
    }
    assert parts[..|parts|] == parts;
    return Ok(size);
  }

  method WriteHeader(buf: array<byte>, at: nat, partSize: nat, ghost f: Frame) returns (next: nat)
    requires FrameOk(f) && partSize == |f.data| && (f.Short? <==> partSize < UINT8_MAX)
    requires at + |Header(f)| <= buf.Length
    modifies buf
    ensures next == at + |Header(f)|
    ensures buf[..next] == old(buf[..at]) + Header(f)
  {
    next := at;
    if partSize < UINT8_MAX {
      buf[next] := partSize as byte;
      next := next + 1;
    } else {
      buf[next] := UINT8_MAX as byte;
      next := next + 1;
      WriteNetworkOrder(buf, next, partSize);
      next := next + 4;
    }
  }

  /** One round of the second pass: a part's size and data go to `buf` from position `at` on. */
  method WritePart(buf: array<byte>, at: nat, part: seq<byte>) returns (next: nat)
    requires |part| <= UINT32_MAX && at + |FrameBytes(FrameOf(part))| <= buf.Length
    modifies buf
    ensures next == at + |FrameBytes(FrameOf(part))|
    ensures buf[..next] == old(buf[..at]) + FrameBytes(FrameOf(part))
  {
    next := WriteHeader(buf, at, |part|, FrameOf(part));
    Memcpy(buf, next, part);
    next := next + |part|;
    AppendAssociates(old(buf[..at]), Header(FrameOf(part)), part);
  }

  lemma EncodingMonotone(parts: seq<seq<byte>>, i: nat)
    requires Encodable(parts) && i <= |parts|
    ensures |Encoding(parts[..i])| <= |Encoding(parts)|
  {
    assert Frames(parts) == Frames(parts[..i]) + Frames(parts[i..]);
    WireAppend(Frames(parts[..i]), Frames(parts[i..]));
  }

  /** Fails exactly on a part whose size does not fit 32 bits; otherwise the buffer, sized by the
      first pass, is filled to its last byte by the second. */
  method Encode(parts: seq<seq<byte>>) returns (r: Result<array<byte>, EncodeError>)
    ensures r.Ok? <==> Encodable(parts)
    ensures r.Ok? ==> fresh(r.value) && r.value[..] == Encoding(parts)
  {
    var size := CheckSizes(parts);
    if size.Err? {
      return Err(size.error);
    }
    var buf := new byte[size.value];
    var at := 0;
    for i := 0 to |parts|
      invariant at == |Encoding(parts[..i])| <= buf.Length
      invariant buf[..at] == Encoding(parts[..i])
    {
      EncodingSnoc(parts, i);
      EncodingMonotone(parts, i + 1);
      at := WritePart(buf, at, parts[i]);
    }
    assert parts[..|parts|] == parts;
    assert buf[..at] == buf[..];
    return Ok(buf);
  }

  /** One round of the decoding loop, from position `at` below the end of the message. */
  method ReadPart(encoded: array<byte>, at: nat) returns (part: Result<seq<byte>, DecodeError>, next: nat)
    requires at < encoded.Length
    ensures at < next <= encoded.Length
    ensures match FirstFrame(encoded[at..])
            case Err(e) => part == Err(e)
            case Ok(f) => part == Ok(f.data) && next == at + FrameSize(f)
  {
    var source, limit := at, encoded.Length;
    var partSize := encoded[source] as nat;
    source := source + 1;
    if partSize == UINT8_MAX {
      if limit - source < 4 {
        return Err(OverflowReadingSize), source;
      }
      partSize := ReadU32NetworkOrder(encoded[source..source + 4]);
      SliceOfTail(encoded[..], at, source, source + 4);
      source := source + 4;
    }
    if limit - source < partSize {
      return Err(OverflowReadingPart), source;
    }
    next := source + partSize;
    SliceOfTail(encoded[..], at, source, next);
    return Ok(encoded[source..next]), next;
  }

  /** `out` holds the decoded parts, also the ones already written when a size overruns `limit`. */
  method Decode(encoded: array<byte>) returns (out: seq<seq<byte>>, error: Option<DecodeError>)
    ensures out == Data(DecodeFrom(encoded[..]).frames)
    ensures error == DecodeFrom(encoded[..]).error
  {
    var source := 0;
    out := [];
    ghost var all, frames := DecodeFrom(encoded[..]), [];
    assert encoded[0..] == encoded[..];
    while source < encoded.Length
      invariant source <= encoded.Length
      invariant all == Prefixed(frames, DecodeFrom(encoded[source..]))
      invariant out == Data(frames)
    {
      ghost var rest := encoded[source..];
      var part, next := ReadPart(encoded, source);
      if part.Err? {
        return out, Some(part.error);
      }
      ghost var f := FirstFrame(rest).value;
      assert encoded[next..] == rest[FrameSize(f)..];
      AppendAssociates(frames, [f], DecodeFrom(encoded[next..]).frames);
      frames := frames + [f];
      out := out + [part.value];
      source := next;
    }
    error := None;
  }

  // ---------------------------------------------------------------- the 32-bit size field

  lemma NetworkOrderRoundTrip(value: nat)
    requires value <= UINT32_MAX
    ensures ReadU32NetworkOrder(NetworkOrder(value)) == value
  {
    assert value / 0x100 / 0x100 == value / 0x1_0000;
    assert value / 0x1_0000 / 0x100 == value / 0x100_0000;
  }

  lemma NetworkOrderInjective(buf: seq<byte>)
    requires |buf| == 4
    ensures NetworkOrder(ReadU32NetworkOrder(buf)) == buf
  {
    var a, b, c, d := buf[0] as nat, buf[1] as nat, buf[2] as nat, buf[3] as nat;
    var v := ReadU32NetworkOrder(buf);
    QuotientIs(v, 0x100_0000, a, b * 0x1_0000 + c * 0x100 + d);
    QuotientIs(v, 0x1_0000, a * 0x100 + b, c * 0x100 + d);
    QuotientIs(v, 0x100, a * 0x1_0000 + b * 0x100 + c, d);
    QuotientIs(a * 0x100 + b, 0x100, a, b);
    QuotientIs(a * 0x1_0000 + b * 0x100 + c, 0x100, a * 0x100 + b, c);
  }

  /** The most significant byte comes first. */
  lemma NetworkOrderIsBigEndian(value: nat)
    requires value <= UINT32_MAX
    ensures var b := NetworkOrder(value);
            && |b| == 4
            && value == b[0] as nat * 16777216 + b[1] as nat * 65536 + b[2] as nat * 256 + b[3] as nat
  {
    NetworkOrderRoundTrip(value);
  }

  // ---------------------------------------------------------------- parser and printer

  /** A part is encoded with its size in one byte up to 254, and behind 255 in four bytes up to 4294967295. */
  lemma WireFormat(part: seq<byte>)
    ensures Encodable([part]) <==> |part| <= 4294967295
    ensures |part| <= 254 ==> Encoding([part]) == [|part| as byte] + part
    ensures 255 <= |part| <= 4294967295 ==> Encoding([part]) == [255] + NetworkOrder(|part|) + part
  {
    assert Frames([part])[1..] == [];
    if |part| <= 4294967295 {
      assert Encodable([part]);
      assert Wire(Frames([part])) == FrameBytes(FrameOf(part)) + Wire([]);
    } else {
      assert [part][0] == part;
    }
  }

  /** The two errors: a four-byte size that is cut off, and a part that is. */
  lemma FirstErrors(s: seq<byte>)
    requires s != []
    ensures FirstFrame(s) == Err(OverflowReadingSize) <==> s[0] == 255 && |s| < 5
    ensures FirstFrame(s) == Err(OverflowReadingPart) <==>
            if s[0] != 255 then |s| < 1 + s[0] as nat
            else |s| >= 5 && |s| < 5 + s[1] as nat * 16777216 + s[2] as nat * 65536 + s[3] as nat * 256 + s[4] as nat
  {
  }

  lemma FirstFrameSound(s: seq<byte>)
    requires s != [] && FirstFrame(s).Ok?
    ensures var f := FirstFrame(s).value;
            FrameOk(f) && FrameSize(f) <= |s| && s[..FrameSize(f)] == FrameBytes(f)
  {
    var f := FirstFrame(s).value;
    if f.Long? {
      NetworkOrderInjective(s[1..5]);
      assert s[..FrameSize(f)] == s[..1] + s[1..5] + f.data;
    }
  }

  lemma FirstFrameComplete(f: Frame, rest: seq<byte>)
    requires FrameOk(f)
    ensures FirstFrame(FrameBytes(f) + rest) == Ok(f)
    ensures FrameSize(f) == |FrameBytes(f)|
    ensures (FrameBytes(f) + rest)[FrameSize(f)..] == rest
  {
    var s := FrameBytes(f) + rest;
    if f.Long? {
      NetworkOrderRoundTrip(|f.data|);
      assert s[1..5] == NetworkOrder(|f.data|);
      assert s[5..5 + |f.data|] == f.data;
    } else {
      assert s[1..1 + |f.data|] == f.data;
    }
  }

  /** Whatever the input, the parts reported are the frames at its front; without an error they are all of it. */
  lemma {:induction false} DecodeSound(s: seq<byte>)
    ensures var d := DecodeFrom(s);
            && AllOk(d.frames) && |Wire(d.frames)| <= |s| && s[..|Wire(d.frames)|] == Wire(d.frames)
            && (d.error.None? <==> Wire(d.frames) == s)
  {
    if s != [] && FirstFrame(s).Ok? {
      FirstFrameSound(s);
      var f := FirstFrame(s).value;
      var tail := s[FrameSize(f)..];
      DecodeSound(tail);
      var d := DecodeFrom(s);
      assert d.frames[1..] == DecodeFrom(tail).frames;
      assert s == FrameBytes(f) + tail;
      assert Wire(d.frames) == FrameBytes(f) + Wire(d.frames[1..]);
      assert s[..|Wire(d.frames)|] == FrameBytes(f) + tail[..|Wire(d.frames[1..])|];
      if Wire(d.frames) == s {
        assert Wire(d.frames[1..]) == s[|FrameBytes(f)|..];
      }
    }
  }

  lemma DecodeStep(f: Frame, rest: seq<byte>)
    requires FrameOk(f)
    ensures DecodeFrom(FrameBytes(f) + rest) == Prefixed([f], DecodeFrom(rest))
  {
    FirstFrameComplete(f, rest);
    assert FrameBytes(f) + rest != [];
  }

  lemma {:induction false} DecodeComplete(fs: seq<Frame>, rest: seq<byte>)
    requires AllOk(fs)
    ensures DecodeFrom(Wire(fs) + rest) == Prefixed(fs, DecodeFrom(rest))
  {
    if fs == [] {
      assert Wire(fs) + rest == rest;
    } else {
      AppendAssociates(FrameBytes(fs[0]), Wire(fs[1..]), rest);
      DecodeStep(fs[0], Wire(fs[1..]) + rest);
      DecodeComplete(fs[1..], rest);
      ConsAppend(fs, DecodeFrom(rest).frames);
    }
  }

  /** The grammar is unambiguous and decoding accepts exactly its language. */
  lemma DecodeAcceptsExactlyTheGrammar(s: seq<byte>)
    ensures DecodeFrom(s).error.None? <==> exists fs :: AllOk(fs) && Wire(fs) == s
    ensures forall fs :: AllOk(fs) && Wire(fs) == s ==> DecodeFrom(s).frames == fs
  {
    DecodeSound(s);
    forall fs | AllOk(fs) && Wire(fs) == s
      ensures DecodeFrom(s) == Decoded(fs, None)
    {
      DecodeComplete(fs, []);
      assert Wire(fs) + [] == s;
      assert fs + [] == fs;
    }
  }

  /** When decoding throws, the parts it has already delivered are the longest run of frames the input starts with. */
  lemma DecodeDeliversLongestPrefix(s: seq<byte>, fs: seq<Frame>, rest: seq<byte>)
    requires AllOk(fs) && s == Wire(fs) + rest
    ensures fs <= DecodeFrom(s).frames
  {
    DecodeComplete(fs, rest);
  }

  lemma RoundTrip(parts: seq<seq<byte>>)
    requires Encodable(parts)
    ensures DecodeFrom(Encoding(parts)).error.None?
    ensures Data(DecodeFrom(Encoding(parts)).frames) == parts
  {
    DecodeAcceptsExactlyTheGrammar(Encoding(parts));
    assert Data(Frames(parts)) == parts;
  }

  /** A frame whose size needed one byte but was sent in five. */
  predicate Wasteful(f: Frame) {
    f.Long? && |f.data| < UINT8_MAX
  }

  ghost function WastefulCount(fs: seq<Frame>): nat {
    if fs == [] then 0 else (if Wasteful(fs[0]) then 1 else 0) + WastefulCount(fs[1..])
  }

  lemma {:induction false} WastefulCountZero(fs: seq<Frame>)
    ensures WastefulCount(fs) == 0 <==> forall i | 0 <= i < |fs| :: !Wasteful(fs[i])
  {
    if fs != [] {
      WastefulCountZero(fs[1..]);
      if WastefulCount(fs) == 0 {
        forall i | 0 <= i < |fs|
          ensures !Wasteful(fs[i])
        {
          assert i > 0 ==> fs[i] == fs[1..][i - 1];
        }
      }
    }
  }

  lemma {:induction false} ReframeLength(fs: seq<Frame>)
    requires AllOk(fs)
    ensures Encodable(Data(fs))
    ensures |Wire(fs)| == |Encoding(Data(fs))| + 4 * WastefulCount(fs)
  {
    if fs != [] {
      ReframeLength(fs[1..]);
      assert Frames(Data(fs))[1..] == Frames(Data(fs[1..]));
    }
  }

  /** Decoding and encoding again drops four bytes per wastefully sized part, so it never grows a message,
      and gives the same bytes exactly when no size below 255 was written in the long form. */
  lemma ReencodeNeverGrows(s: seq<byte>)
    requires DecodeFrom(s).error.None?
    ensures var fs := DecodeFrom(s).frames;
            && Encodable(Data(fs))
            && |s| == |Encoding(Data(fs))| + 4 * WastefulCount(fs)
            && (Encoding(Data(fs)) == s <==> forall i | 0 <= i < |fs| :: !Wasteful(fs[i]))
  {
    var fs := DecodeFrom(s).frames;
    DecodeSound(s);
    ReframeLength(fs);
    WastefulCountZero(fs);
    if forall i | 0 <= i < |fs| :: !Wasteful(fs[i]) {
      assert Frames(Data(fs)) == fs;
    }
  }
}
