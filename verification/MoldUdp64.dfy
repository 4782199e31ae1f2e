/** MoldUDP64 datagrams: byte codec, two-pass parser and sequence tracker. */
module MoldUdp64 {
  import opened Machine

  type Bytes = seq<Byte>

  const HEADER_BYTES := 20
  const END_OF_SESSION := 0xFFFF

  // ---- Big-endian integers ----

  ghost function Value(bytes: Bytes): nat {
    if bytes == [] then 0 else 256 * Value(bytes[..|bytes| - 1]) + bytes[|bytes| - 1]
  }

  function Shifted(value: nat, bytes: nat): nat {
    if bytes == 0 then value else Shifted(value, bytes - 1) / 256
  }

  ghost function BigEndian(value: nat, n: nat): (r: Bytes)
    ensures |r| == n
  {
    if n == 0 then [] else BigEndian(value / 256, n - 1) + [value % 256]
  }

  ghost function Power256(n: nat): nat {
    if n == 0 then 1 else 256 * Power256(n - 1)
  }

  lemma {:induction false} EncodeDecode(value: nat, n: nat)
    requires value < Power256(n)
    ensures Value(BigEndian(value, n)) == value
  {
    if n > 0 {
      EncodeDecode(value / 256, n - 1);
      assert BigEndian(value, n)[..n - 1] == BigEndian(value / 256, n - 1);
    }
  }

  lemma {:induction false} DecodeEncode(bytes: Bytes)
    ensures BigEndian(Value(bytes), |bytes|) == bytes
    ensures Value(bytes) < Power256(|bytes|)
  {
    if bytes != [] {
      DecodeEncode(bytes[..|bytes| - 1]);
    }
  }

  lemma Widths()
    ensures Power256(2) == 0x1_0000 && Power256(4) == 0x1_0000_0000 && Power256(8) == 0x1_0000_0000_0000_0000
  {
    assert Power256(3) == 0x100_0000 && Power256(5) == 0x100_0000_0000;
    assert Power256(6) == 0x1_0000_0000_0000;
  }

  function Octet(p: Bytes, i: nat): int
    requires i < |p|
  {
    p[i]
  }

  function ReadU16(p: Bytes, at: nat): U16
    requires at + 2 <= |p|
  {
    Octet(p, at) * 0x100 + Octet(p, at + 1)
  }

  function ReadU32(p: Bytes, at: nat): U32
    requires at + 4 <= |p|
  {
    Octet(p, at) * 0x100_0000 + Octet(p, at + 1) * 0x1_0000 + Octet(p, at + 2) * 0x100 + Octet(p, at + 3)
  }

  function ReadU48(p: Bytes, at: nat): U64
    requires at + 6 <= |p|
  {
    Octet(p, at) * 0x100_0000_0000 + Octet(p, at + 1) * 0x1_0000_0000 + Octet(p, at + 2) * 0x100_0000
    + Octet(p, at + 3) * 0x1_0000
    + Octet(p, at + 4) * 0x100 + Octet(p, at + 5)
  }

  function ReadU64(p: Bytes, at: nat): U64
    requires at + 8 <= |p|
  {
    Octet(p, at) * 0x100_0000_0000_0000 + Octet(p, at + 1) * 0x1_0000_0000_0000 + Octet(p, at + 2) * 0x100_0000_0000
    + Octet(p, at + 3) * 0x1_0000_0000 + Octet(p, at + 4) * 0x100_0000 + Octet(p, at + 5) * 0x1_0000
    + Octet(p, at + 6) * 0x100 + Octet(p, at + 7)
  }

  lemma ValueStep(p: Bytes, at: nat, n: nat)
    requires at + n + 1 <= |p|
    ensures Value(p[at..at + n + 1]) == 256 * Value(p[at..at + n]) + p[at + n]
  {
    assert p[at..at + n + 1][..n] == p[at..at + n];
  }

  lemma Value4(p: Bytes, at: nat)
    requires at + 4 <= |p|
    ensures Value(p[at..at + 2]) == ReadU16(p, at)
    ensures Value(p[at..at + 4]) == ReadU32(p, at)
  {
    assert p[at..at + 0] == [];
    ValueStep(p, at, 0);
    ValueStep(p, at, 1);
    ValueStep(p, at, 2);
    ValueStep(p, at, 3);
  }

  lemma Value8(p: Bytes, at: nat)
    requires at + 8 <= |p| && Value(p[at..at + 4]) == ReadU32(p, at)
    ensures Value(p[at..at + 6]) == ReadU48(p, at)
    ensures Value(p[at..at + 8]) == ReadU64(p, at)
  {
    hide Value;
    ValueStep(p, at, 4);
    ValueStep(p, at, 5);
    ValueStep(p, at, 6);
    ValueStep(p, at, 7);
  }

  /** The shift-and-or readers compute the big-endian value of their bytes. */
  lemma ReadersAreBigEndian(p: Bytes, at: nat)
    ensures at + 2 <= |p| ==> ReadU16(p, at) == Value(p[at..at + 2])
    ensures at + 4 <= |p| ==> ReadU32(p, at) == Value(p[at..at + 4])
    ensures at + 6 <= |p| ==> ReadU48(p, at) == Value(p[at..at + 6])
    ensures at + 8 <= |p| ==> ReadU64(p, at) == Value(p[at..at + 8])
  {
    hide Value, ReadU16, ReadU32, ReadU48, ReadU64;
    var q := p + [0, 0, 0, 0, 0, 0, 0, 0];
    if at + 2 <= |p| {
      Value4(q, at);
      assert q[at..at + 2] == p[at..at + 2];
      SameRead(p, q, at);
    }
    if at + 4 <= |p| {
      Value8(q, at);
      assert q[at..at + 4] == p[at..at + 4];
    }
    if at + 6 <= |p| {
      assert q[at..at + 6] == p[at..at + 6];
    }
    if at + 8 <= |p| {
      assert q[at..at + 8] == p[at..at + 8];
    }
  }

  /** Bytes past a field do not affect reading it. */
  lemma SameRead(p: Bytes, q: Bytes, at: nat)
    requires p <= q && at + 2 <= |p|
    ensures ReadU16(p, at) == ReadU16(q, at)
    ensures at + 4 <= |p| ==> ReadU32(p, at) == ReadU32(q, at)
    ensures at + 6 <= |p| ==> ReadU48(p, at) == ReadU48(q, at)
    ensures at + 8 <= |p| ==> ReadU64(p, at) == ReadU64(q, at)
  {
    assert forall i :: at <= i < |p| ==> Octet(p, i) == Octet(q, i);
  }

  /** A field written big-endian anywhere in a packet is read back. */
  lemma ReadBack(p: Bytes, at: nat, value: nat)
    ensures at + 2 <= |p| && value <= U16_MAX && p[at..at + 2] == BigEndian(value, 2) ==> ReadU16(p, at) == value
    ensures at + 4 <= |p| && value <= U32_MAX && p[at..at + 4] == BigEndian(value, 4) ==> ReadU32(p, at) == value
    ensures at + 8 <= |p| && value <= U64_MAX && p[at..at + 8] == BigEndian(value, 8) ==> ReadU64(p, at) == value
  {
    ReadersAreBigEndian(p, at);
    Widths();
    if value <= U32_MAX {
      EncodeDecode(value, 4);
    }
    if value <= U16_MAX {
      EncodeDecode(value, 2);
    }
    if value <= U64_MAX {
      EncodeDecode(value, 8);
    }
  }

  /** Write the low bytes of the value, most significant first. */
  method EncodeU64(output: array<Byte>, at: nat, value: U64)
    requires at + 8 <= output.Length
    modifies output
    ensures output[at..at + 8] == BigEndian(value, 8)
    ensures output[..at] == old(output[..at]) && output[at + 8..] == old(output[at + 8..])
  {
    ghost var high := Shifted(value, 8);
    assert BigEndian(high, 0) == [];
    for i := 0 to 8
      invariant output[at..at + i] == BigEndian(Shifted(value, 8 - i), i)
      invariant output[..at] == old(output[..at]) && output[at + 8..] == old(output[at + 8..])
    {
      var low := Shifted(value, 7 - i);
      assert Shifted(value, 8 - i) == low / 256;
      output[at + i] := low % 256;
      assert output[at..at + i + 1] == output[at..at + i] + [low % 256];
    }
    assert Shifted(value, 0) == value;
  }

  method EncodeU16(output: array<Byte>, at: nat, value: U16)
    requires at + 2 <= output.Length
    modifies output
    ensures output[at..at + 2] == BigEndian(value, 2)
    ensures output[..at] == old(output[..at]) && output[at + 2..] == old(output[at + 2..])
  {
    output[at] := value / 256;
    output[at + 1] := value % 256;
    assert BigEndian(value / 256, 1) == BigEndian(value / 256 / 256, 0) + [value / 256 % 256];
    assert output[at..at + 2] == [value / 256, value % 256];
  }

  // ---- Datagrams ----

  datatype Header = Header(session: Bytes, first: U64, count: U16)
  datatype PacketKind = Data | Heartbeat | EndOfSession

  function Kind(h: Header): PacketKind {
    if h.count == 0 then Heartbeat else if h.count == END_OF_SESSION then EndOfSession else Data
  }

  function HeaderOf(packet: Bytes): Header
    requires |packet| >= HEADER_BYTES
  {
    Header(packet[..10], ReadU64(packet, 10), ReadU16(packet, 18))
  }

  ghost function HeaderBytes(h: Header): Bytes {
    h.session + BigEndian(h.first, 8) + BigEndian(h.count, 2)
  }

  /** The request packet, and a heartbeat or end of session, is a bare header. */
  method MakeRequestPacket(session: Bytes, first: U64, count: U16) returns (packet: Bytes)
    requires |session| == 10
    ensures packet == HeaderBytes(Header(session, first, count)) && |packet| == HEADER_BYTES
  {
    var bytes := new Byte[HEADER_BYTES](i requires 0 <= i < HEADER_BYTES => if i < 10 then session[i] else 0);
    assert bytes[..10] == session;
    EncodeU64(bytes, 10, first);
    assert bytes[..18] == bytes[..10] + bytes[10..18];
    EncodeU16(bytes, 18, count);
    assert bytes[..] == bytes[..18] + bytes[18..20];
    packet := bytes[..];
  }

  lemma HeaderRoundTrip(h: Header, rest: Bytes)
    requires |h.session| == 10
    ensures |HeaderBytes(h)| == HEADER_BYTES && HeaderOf(HeaderBytes(h) + rest) == h
  {
    var p := HeaderBytes(h) + rest;
    assert p[10..18] == BigEndian(h.first, 8);
    assert p[18..20] == BigEndian(h.count, 2);
    ReadBack(p, 10, h.first);
    ReadBack(p, 18, h.count);
  }

  /** The field positions and the byte order of the header and of a message block, read off counting bytes. */
  lemma HeaderPositions()
    ensures var p: Bytes := [0, 1, 2, 3, 4, 5, 6, 7, 8, 9, 10, 11, 12, 13, 14, 15, 16, 17, 18, 19];
            HeaderOf(p) == Header([0, 1, 2, 3, 4, 5, 6, 7, 8, 9], 0x0A0B0C0D0E0F1011, 0x1213)
    ensures Frame([7, 8, 9]) == [0, 3, 7, 8, 9]
  {
    var p: Bytes := [0, 1, 2, 3, 4, 5, 6, 7, 8, 9, 10, 11, 12, 13, 14, 15, 16, 17, 18, 19];
    assert p[..10] == [0, 1, 2, 3, 4, 5, 6, 7, 8, 9];
    assert BigEndian(0, 1) == BigEndian(0, 0) + [0];
    assert BigEndian(3, 2) == BigEndian(0, 1) + [3];
  }

  ghost function Frame(message: Bytes): Bytes {
    BigEndian(|message|, 2) + message
  }

  ghost function Frames(messages: seq<Bytes>): Bytes {
    if messages == [] then [] else Frames(messages[..|messages| - 1]) + Frame(messages[|messages| - 1])
  }

  ghost predicate Sized(messages: seq<Bytes>)
  {
    forall i :: 0 <= i < |messages| ==> |messages[i]| <= U16_MAX
  }

  /** The datagram that carries these messages from number `first` on. */
  ghost function DataPacket(session: Bytes, first: U64, messages: seq<Bytes>): Bytes
    requires |messages| <= U16_MAX
  {
    HeaderBytes(Header(session, first, |messages|)) + Frames(messages)
  }

  lemma FramesSnoc(messages: seq<Bytes>, m: Bytes)
    ensures Frames(messages + [m]) == Frames(messages) + Frame(m)
  {
    assert (messages + [m])[..|messages|] == messages;
  }

  lemma {:induction false} FramesLength(messages: seq<Bytes>)
    ensures |Frames(messages)| >= 2 * |messages|
  {
    if messages != [] {
      FramesLength(messages[..|messages| - 1]);
    }
  }

  /** A block boundary at `offset`: the payload before it is exactly these messages, framed. */
  ghost predicate Boundary(p: Bytes, messages: seq<Bytes>, offset: nat)
  {
    HEADER_BYTES <= offset <= |p| && p[HEADER_BYTES..offset] == Frames(messages) && Sized(messages)
  }

  /** A whole message block starts at the offset. */
  predicate BlockAt(p: Bytes, offset: nat) {
    offset + 2 <= |p| && offset + 2 + ReadU16(p, offset) <= |p|
  }

  function MessageAt(p: Bytes, offset: nat): Bytes
    requires BlockAt(p, offset)
  {
    p[offset + 2..offset + 2 + ReadU16(p, offset)]
  }

  lemma BlockIsFrame(p: Bytes, offset: nat)
    requires BlockAt(p, offset)
    ensures p[offset..offset + 2 + ReadU16(p, offset)] == Frame(MessageAt(p, offset))
  {
    ReadersAreBigEndian(p, offset);
    DecodeEncode(p[offset..offset + 2]);
    assert BigEndian(ReadU16(p, offset), 2) == p[offset..offset + 2];
    var end := offset + 2 + ReadU16(p, offset);
    assert p[offset..end] == p[offset..offset + 2] + p[offset + 2..end];
  }

  lemma NextBoundary(p: Bytes, messages: seq<Bytes>, offset: nat)
    requires Boundary(p, messages, offset) && BlockAt(p, offset)
    ensures Boundary(p, messages + [MessageAt(p, offset)], offset + 2 + ReadU16(p, offset))
  {
    var m := MessageAt(p, offset);
    FramesSnoc(messages, m);
    BlockIsFrame(p, offset);
    var end := offset + 2 + ReadU16(p, offset);
    assert p[HEADER_BYTES..end] == p[HEADER_BYTES..offset] + p[offset..end];
  }

  /** In a framed payload the first k messages end at a boundary. */
  lemma {:induction false} PrefixBoundary(p: Bytes, messages: seq<Bytes>, end: nat, k: nat)
    requires Boundary(p, messages, end) && k <= |messages|
    ensures Boundary(p, messages[..k], HEADER_BYTES + |Frames(messages[..k])|)
    decreases |messages| - k
  {
    if k < |messages| {
      PrefixBoundary(p, messages, end, k + 1);
      assert messages[..k + 1][..k] == messages[..k];
      var o, e := HEADER_BYTES + |Frames(messages[..k])|, HEADER_BYTES + |Frames(messages[..k + 1])|;
      assert p[HEADER_BYTES..o] == p[HEADER_BYTES..e][..o - HEADER_BYTES];
    } else {
      assert messages[..k] == messages;
    }
  }

  /** Reading at the end of the first k messages yields message k and the next boundary. */
  lemma FrameReads(p: Bytes, messages: seq<Bytes>, end: nat, k: nat)
    requires Boundary(p, messages, end) && k < |messages|
    ensures var o := HEADER_BYTES + |Frames(messages[..k])|;
            BlockAt(p, o) && MessageAt(p, o) == messages[k]
            && o + 2 + ReadU16(p, o) == HEADER_BYTES + |Frames(messages[..k + 1])|
  {
    PrefixBoundary(p, messages, end, k);
    PrefixBoundary(p, messages, end, k + 1);
    assert messages[..k + 1][..k] == messages[..k];
    var o, e := HEADER_BYTES + |Frames(messages[..k])|, HEADER_BYTES + |Frames(messages[..k + 1])|;
    var f := Frame(messages[k]);
    assert p[HEADER_BYTES..e] == p[HEADER_BYTES..o] + f;
    assert p[o..e] == p[HEADER_BYTES..e][o - HEADER_BYTES..] == f;
    assert p[o..o + 2] == f[..2] == BigEndian(|messages[k]|, 2);
    ReadBack(p, o, |messages[k]|);
    assert p[o + 2..e] == f[2..] == messages[k];
  }

  /** Framing is injective: of two tilings of one packet the shorter is a prefix of the longer. */
  lemma {:induction false} TilingUnique(p: Bytes, a: seq<Bytes>, b: seq<Bytes>, endA: nat, endB: nat)
    requires Boundary(p, a, endA) && Boundary(p, b, endB) && |a| <= |b|
    ensures b[..|a|] == a
    decreases |a|
  {
    if a != [] {
      var n := |a| - 1;
      assert a[..n + 1] == a;
      PrefixBoundary(p, a, endA, n);
      TilingUnique(p, a[..n], b, HEADER_BYTES + |Frames(a[..n])|, endB);
      FrameReads(p, a, endA, n);
      FrameReads(p, b, endB, n);
      assert b[..n + 1] == a;
    }
  }

  lemma SameBoundary(p: Bytes, a: seq<Bytes>, b: seq<Bytes>, endA: nat, endB: nat)
    requires Boundary(p, a, endA) && Boundary(p, b, endB) && |a| == |b|
    ensures a == b && endA == endB
  {
    TilingUnique(p, a, b, endA, endB);
    assert b[..|a|] == b;
  }

  // ---- Parser ----

  datatype ParseError =
    | NoError | HeaderTruncated | MessageLengthTruncated | MessageTruncated
    | SpecialPacketHasPayload | TrailingBytes | SequenceOverflow

  datatype ParseResult = ParseResult(header: Option<Header>, error: ParseError, bytesConsumed: nat,
                                     messagesVisited: nat)
  datatype Visit = Visit(sequence: int, message: Bytes)

  ghost function Numbered(first: int, messages: seq<Bytes>): (r: seq<Visit>)
    ensures |r| == |messages|
  {
    seq(|messages|, i requires 0 <= i < |messages| => Visit(first + i, messages[i]))
  }

  /** The payload is exactly these messages. */
  ghost predicate Carries(packet: Bytes, messages: seq<Bytes>)
  {
    && |packet| >= HEADER_BYTES && Boundary(packet, messages, |packet|)
    && var h := HeaderOf(packet);
       if Kind(h).Data? then |messages| == h.count && h.first + h.count - 1 <= U64_MAX else messages == []
  }

  lemma CarriesUnique(packet: Bytes, a: seq<Bytes>, b: seq<Bytes>)
    requires Carries(packet, a) && Carries(packet, b)
    ensures a == b
  {
    SameBoundary(packet, a, b, |packet|, |packet|);
  }

  /** Why a data packet is refused: how many whole blocks there are, and what stops the next. */
  ghost predicate Blocked(packet: Bytes, count: nat, error: ParseError, consumed: nat, seen: seq<Bytes>, offset: nat)
  {
    && Boundary(packet, seen, offset) && |seen| <= count
    && match error
       case MessageLengthTruncated => |seen| < count && offset + 2 > |packet| && consumed == offset
       case MessageTruncated =>
         |seen| < count && offset + 2 <= |packet| && !BlockAt(packet, offset) && consumed == offset + 2
       case TrailingBytes => |seen| == count && offset < |packet| && consumed == offset
       case _ => false
  }

  ghost predicate Refused(packet: Bytes, count: nat, error: ParseError, consumed: nat)
  {
    exists seen, offset :: Blocked(packet, count, error, consumed, seen, offset)
  }

  /** A refused data packet carries no message list at all. */
  lemma RefusedCarriesNothing(packet: Bytes, error: ParseError, consumed: nat, messages: seq<Bytes>)
    requires |packet| >= HEADER_BYTES && Kind(HeaderOf(packet)).Data?
    requires Refused(packet, HeaderOf(packet).count, error, consumed)
    ensures !Carries(packet, messages)
  {
    var count := HeaderOf(packet).count;
    var seen, offset :| Blocked(packet, count, error, consumed, seen, offset);
    if Carries(packet, messages) {
      if |seen| < count {
        TilingUnique(packet, seen, messages, offset, |packet|);
        FrameReads(packet, messages, |packet|, |seen|);
      } else {
        SameBoundary(packet, seen, messages, offset, |packet|);
      }
    }
  }

  /** Pass one: every message block and exact packet consumption. */
  method Validate(packet: Bytes, count: nat) returns (error: ParseError, consumed: nat)
    requires |packet| >= HEADER_BYTES
    ensures error.NoError? ==> exists messages :: |messages| == count && Boundary(packet, messages, |packet|)
    ensures !error.NoError? ==> Refused(packet, count, error, consumed)
  {
    var offset: nat := HEADER_BYTES;
    ghost var seen: seq<Bytes> := [];
    for i := 0 to count
      invariant Boundary(packet, seen, offset) && |seen| == i
    {
      if |packet| - offset < 2 {
        assert Blocked(packet, count, MessageLengthTruncated, offset, seen, offset);
        return MessageLengthTruncated, offset;
      }
      var messageSize := ReadU16(packet, offset);
      if |packet| - (offset + 2) < messageSize {
        assert Blocked(packet, count, MessageTruncated, offset + 2, seen, offset);
        return MessageTruncated, offset + 2;
      }
      NextBoundary(packet, seen, offset);
      seen := seen + [MessageAt(packet, offset)];
      offset := offset + 2 + messageSize;
    }
    if offset != |packet| {
      assert Blocked(packet, count, TrailingBytes, offset, seen, offset);
      return TrailingBytes, offset;
    }
    return NoError, offset;
  }

  /** Pass two: hand each message of the validated packet to the callback. */
  method VisitBlocks(packet: Bytes, first: int, count: nat, ghost messages: seq<Bytes>)
    returns (visits: seq<Visit>, consumed: nat)
    requires Boundary(packet, messages, |packet|) && |messages| == count
    ensures visits == Numbered(first, messages) && consumed == |packet|
  {
    var offset: nat := HEADER_BYTES;
    visits := [];
    assert messages[..0] == [];
    for i := 0 to count
      invariant offset == HEADER_BYTES + |Frames(messages[..i])|
      invariant visits == Numbered(first, messages[..i])
    {
      FrameReads(packet, messages, |packet|, i);
      var messageSize := ReadU16(packet, offset);
      offset := offset + 2;
      visits := visits + [Visit(first + i, packet[offset..offset + messageSize])];
      offset := offset + messageSize;
    }
    assert messages[..count] == messages;
    consumed := offset;
  }

  /**
   Validate the whole datagram, then visit its messages. `visits` is the sequence of callbacks.
   Either the packet is refused without a callback, or the callbacks are the message list that
   tiles the payload, numbered from the header's first sequence.
   */
  method Parse(packet: Bytes) returns (result: ParseResult, visits: seq<Visit>)
    ensures result.header == if |packet| >= HEADER_BYTES then Some(HeaderOf(packet)) else None
    ensures result.messagesVisited == |visits|
    ensures result.error.NoError? <==> exists messages :: Carries(packet, messages)
    ensures result.error.NoError? ==> result.bytesConsumed == |packet|
    ensures forall messages :: Carries(packet, messages) ==> visits == Numbered(HeaderOf(packet).first, messages)
    ensures !result.error.NoError? ==> visits == []
    ensures result.error.HeaderTruncated? <==> |packet| < HEADER_BYTES
    ensures result.error.SpecialPacketHasPayload? <==> |packet| > HEADER_BYTES && !Kind(HeaderOf(packet)).Data?
    ensures result.error.SequenceOverflow? <==>
              |packet| >= HEADER_BYTES && Kind(HeaderOf(packet)).Data?
              && HeaderOf(packet).first + HeaderOf(packet).count - 1 > U64_MAX
    ensures result.error in {MessageLengthTruncated, MessageTruncated, TrailingBytes} ==>
              |packet| >= HEADER_BYTES && Refused(packet, HeaderOf(packet).count, result.error, result.bytesConsumed)
  {
    if |packet| < HEADER_BYTES {
      return ParseResult(None, HeaderTruncated, 0, 0), [];
    }
    var h := HeaderOf(packet);
    var size, count := |packet|, h.count;
    if count == 0 || count == END_OF_SESSION {
      assert size == HEADER_BYTES ==> Carries(packet, []);
      forall messages | Carries(packet, messages)
        ensures size == HEADER_BYTES
      {
        assert packet[HEADER_BYTES..] == [];
      }
      var error := if size != HEADER_BYTES then SpecialPacketHasPayload else NoError;
      return ParseResult(Some(h), error, HEADER_BYTES, 0), [];
    }
    if h.first > U64_MAX - (count - 1) {
      return ParseResult(Some(h), SequenceOverflow, HEADER_BYTES, 0), [];
    }
    var error, consumed := Validate(packet, count);
    if error != NoError {
      forall messages
        ensures !Carries(packet, messages)
      {
        RefusedCarriesNothing(packet, error, consumed, messages);
      }
      return ParseResult(Some(h), error, consumed, 0), [];
    }
    ghost var messages :| |messages| == count && Boundary(packet, messages, size);
    assert Carries(packet, messages);
    forall other | Carries(packet, other)
      ensures other == messages
    {
      CarriesUnique(packet, messages, other);
    }
    visits, consumed := VisitBlocks(packet, h.first, count, messages);
    result := ParseResult(Some(h), NoError, consumed, |visits|);
  }

  // ---- Sequence tracker ----

  datatype SequenceState = InOrder | Overlap | Duplicate | Gap | SessionMismatch | Overflow
  datatype Decision = Decision(state: SequenceState, skip: int, expected: int, missing: int)

  predicate MayProcess(d: Decision) {
    d.state.InOrder? || d.state.Overlap?
  }

  /** Numbers a packet carries: first up to, not including, this. */
  function SpanEnd(h: Header): int {
    h.first + if Kind(h).Data? then h.count else 0
  }

  /** Where a packet of the right session stands relative to the next expected number. */
  function Judge(next: int, h: Header): (d: Decision)
  {
    if Kind(h).Data? && SpanEnd(h) > U64_MAX then Decision(Overflow, 0, next, 0)
    else if h.first > next then Decision(Gap, 0, next, h.first - next)
    else if !Kind(h).Data? then Decision(if h.first == next then InOrder else Duplicate, 0, next, 0)
    else if SpanEnd(h) <= next then Decision(Duplicate, h.count, next, 0)
    else Decision(if h.first < next then Overlap else InOrder, next - h.first, next, 0)
  }

  /**
   A data packet is processed exactly when it holds the expected number; then skipping the
   reported messages starts at that number and the 16-bit skip count does not truncate.
   */
  lemma JudgeBySpan(next: int, h: Header)
    ensures Judge(next, h).state.Overflow? <==> Kind(h).Data? && SpanEnd(h) > U64_MAX
    ensures Kind(h).Data? && SpanEnd(h) <= U64_MAX ==> (MayProcess(Judge(next, h)) <==> h.first <= next < SpanEnd(h))
    ensures !Kind(h).Data? ==> (MayProcess(Judge(next, h)) <==> h.first == next)
    ensures MayProcess(Judge(next, h)) ==>
              h.first + Judge(next, h).skip == next && (Kind(h).Data? ==> 0 <= Judge(next, h).skip < h.count)
    ensures Judge(next, h).state.Gap? ==> next < h.first && h.first == next + Judge(next, h).missing
    ensures Judge(next, h).state.Duplicate? ==> SpanEnd(h) <= next
  {
  }

  /** Every answer of the tracker about a packet of its session, in plain numbers. */
  lemma JudgeExact(next: int, h: Header)
    ensures var data, end := 0 < h.count < 0xFFFF, h.first + h.count;
            Judge(next, h) ==
            if data && end > U64_MAX then Decision(Overflow, 0, next, 0)
            else if h.first > next then Decision(Gap, 0, next, h.first - next)
            else if h.first == next then Decision(InOrder, 0, next, 0)
            else if !data then Decision(Duplicate, 0, next, 0)
            else if end <= next then Decision(Duplicate, h.count, next, 0)
            else Decision(Overlap, next - h.first, next, 0)
  {
  }

  class SequenceTracker {
    var session: Bytes
    var next: U64
    var initialized: bool

    constructor ()
      ensures !initialized && session == [] && next == 0
    {
      session, next, initialized := [], 0, false;
    }

    /** The first packet inspected, of whatever kind, fixes the session and the next number. */
    method Inspect(h: Header) returns (d: Decision)
      modifies this
      ensures initialized
      ensures if old(initialized) then session == old(session) && next == old(next)
              else session == h.session && next == h.first
      ensures d == if old(initialized) && old(session) != h.session then Decision(SessionMismatch, 0, next, 0)
                   else Judge(next, h)
    {
      if !initialized {
        session, next, initialized := h.session, h.first, true;
      } else if session != h.session {
        return Decision(SessionMismatch, 0, next, 0);
      }
      var carriesData := Kind(h).Data?;
      var count: int := if carriesData then h.count else 0;
      if count != 0 && h.first > U64_MAX - count {
        return Decision(Overflow, 0, next, 0);
      }
      var packetEnd := h.first + count;
      if h.first > next {
        return Decision(Gap, 0, next, h.first - next);
      }
      if !carriesData {
        if h.first == next {
          return Decision(InOrder, 0, next, 0);
        }
        return Decision(Duplicate, 0, next, 0);
      }
      if packetEnd <= next {
        return Decision(Duplicate, h.count, next, 0);
      }
      if h.first < next {
        return Decision(Overlap, next - h.first, next, 0);
      }
      return Decision(InOrder, 0, next, 0);
    }

    method Commit(h: Header, d: Decision)
      requires MayProcess(d) && Kind(h).Data? ==> SpanEnd(h) <= U64_MAX
      modifies this`next
      ensures next == if MayProcess(d) && Kind(h).Data? then SpanEnd(h) else old(next)
    {
      if MayProcess(d) && Kind(h).Data? {
        next := h.first + h.count;
      }
    }
  }
}
