/** The loopback sender's packetiser, proved to be the inverse of the datagram parser. */
module Packetisers {
  import opened Machine
  import opened MoldUdp64

  const DATAGRAM_BYTES := 1400

  /** A datagram that parses to these messages from this number on. */
  ghost predicate Delivers(packet: Bytes, session: Bytes, first: int, messages: seq<Bytes>)
  {
    && |packet| >= HEADER_BYTES && Carries(packet, messages)
    && HeaderOf(packet).session == session && HeaderOf(packet).first == first
    && Kind(HeaderOf(packet)).Data?
  }

  ghost function Flat(groups: seq<seq<Bytes>>): seq<Bytes> {
    if groups == [] then [] else Flat(groups[..|groups| - 1]) + groups[|groups| - 1]
  }

  /** Datagram i delivers group i, each group numbered right after the ones before it. */
  ghost predicate Consecutive(sent: seq<Bytes>, session: Bytes, groups: seq<seq<Bytes>>)
  {
    && |sent| == |groups|
    && forall i :: 0 <= i < |sent| ==>
         && groups[i] != [] && Delivers(sent[i], session, 1 + |Flat(groups[..i])|, groups[i])
         && (|groups[i]| == 1 || |sent[i]| <= DATAGRAM_BYTES)
  }

  lemma FlatSnoc(groups: seq<seq<Bytes>>, g: seq<Bytes>)
    ensures Flat(groups + [g]) == Flat(groups) + g
  {
    assert (groups + [g])[..|groups|] == groups;
  }

  lemma SendKeeps(sent: seq<Bytes>, session: Bytes, groups: seq<seq<Bytes>>, packet: Bytes, g: seq<Bytes>)
    requires Consecutive(sent, session, groups) && g != []
    requires Delivers(packet, session, 1 + |Flat(groups)|, g) && (|g| == 1 || |packet| <= DATAGRAM_BYTES)
    ensures Consecutive(sent + [packet], session, groups + [g])
  {
    var groups' := groups + [g];
    forall i | 0 <= i < |groups'|
      ensures groups'[i] != [] && Delivers((sent + [packet])[i], session, 1 + |Flat(groups'[..i])|, groups'[i])
              && (|groups'[i]| == 1 || |(sent + [packet])[i]| <= DATAGRAM_BYTES)
    {
      if i < |groups| {
        assert groups'[..i] == groups[..i];
      } else {
        assert groups'[..i] == groups;
      }
    }
  }

  /** Framed messages behind a filled-in header parse back to themselves. */
  lemma FramedDelivers(session: Bytes, first: U64, messages: seq<Bytes>)
    requires |session| == 10 && 0 < |messages| < END_OF_SESSION && Sized(messages) && first + |messages| - 1 <= U64_MAX
    ensures Delivers(DataPacket(session, first, messages), session, first, messages)
  {
    var h := Header(session, first, |messages|);
    HeaderRoundTrip(h, Frames(messages));
    var p := DataPacket(session, first, messages);
    assert p[HEADER_BYTES..] == Frames(messages);
    assert p[HEADER_BYTES..|p|] == p[HEADER_BYTES..];
  }

  /** Sending a filled-in datagram extends the delivered groups. */
  lemma SendsGroup(sent: seq<Bytes>, session: Bytes, groups: seq<seq<Bytes>>, first: U64, datagram: Bytes,
                   current: seq<Bytes>)
    requires Consecutive(sent, session, groups) && first == 1 + |Flat(groups)| && |session| == 10
    requires 0 < |current| < END_OF_SESSION && Sized(current) && first + |current| - 1 <= U64_MAX
    requires |datagram| >= HEADER_BYTES && datagram[..10] == session && datagram[HEADER_BYTES..] == Frames(current)
    requires |current| == 1 || |datagram| <= DATAGRAM_BYTES
    ensures var packet := HeaderBytes(Header(datagram[..10], first, |current|)) + datagram[HEADER_BYTES..];
            packet == DataPacket(session, first, current) && Consecutive(sent + [packet], session, groups + [current])
    ensures Flat(groups + [current]) == Flat(groups) + current
    ensures datagram[..HEADER_BYTES][..10] == session && datagram[..HEADER_BYTES][HEADER_BYTES..] == Frames([])
  {
    FramedDelivers(session, first, current);
    SendKeeps(sent, session, groups, DataPacket(session, first, current), current);
    FlatSnoc(groups, current);
  }

  /** Write the sequence and count fields of a datagram's header. */
  method FillHeader(datagram: Bytes, first: U64, count: U16) returns (packet: Bytes)
    requires |datagram| >= HEADER_BYTES
    ensures packet == HeaderBytes(Header(datagram[..10], first, count)) + datagram[HEADER_BYTES..]
  {
    var bytes := new Byte[|datagram|](i requires 0 <= i < |datagram| => datagram[i]);
    assert bytes[..10] == datagram[..10] && bytes[18..][2..] == bytes[HEADER_BYTES..] == datagram[HEADER_BYTES..];
    EncodeU64(bytes, 10, first);
    assert bytes[..18] == bytes[..10] + bytes[10..18];
    EncodeU16(bytes, 18, count);
    packet := bytes[..];
    assert packet == bytes[..18] + bytes[18..20] + bytes[20..];
  }

  /** Append one message block to a datagram. */
  method AppendBlock(datagram: Bytes, message: Bytes, ghost current: seq<Bytes>) returns (longer: Bytes)
    requires |datagram| >= HEADER_BYTES && datagram[HEADER_BYTES..] == Frames(current) && |message| <= U16_MAX
    ensures longer == datagram + Frame(message) && longer[HEADER_BYTES..] == Frames(current + [message])
    ensures |longer| == |datagram| + 2 + |message|
  {
    FramesSnoc(current, message);
    var size: U16 := |message|;
    var prefix := new Byte[2];
    EncodeU16(prefix, 0, size);
    assert prefix[..] == prefix[0..2];
    longer := datagram + (prefix[..] + message);
    assert longer[HEADER_BYTES..] == datagram[HEADER_BYTES..] + Frame(message);
  }

  class Packetiser {
    const session: Bytes
    const limit: U64
    var datagram: Bytes
    var first: U64
    var count: U16
    var sentMessages: U64
    var sent: seq<Bytes>
    ghost var groups: seq<seq<Bytes>>
    ghost var current: seq<Bytes>

    ghost predicate Valid()
      reads this
    {
      && |session| == 10 && Sized(current)
      && |datagram| >= HEADER_BYTES && datagram[..10] == session && datagram[HEADER_BYTES..] == Frames(current)
      && count == |current| && (count <= 1 || |datagram| <= DATAGRAM_BYTES)
      && sentMessages == |Flat(groups)| + |current| <= limit
      && first == (if |Flat(groups)| == U64_MAX then 0 else 1 + |Flat(groups)|)
      && Consecutive(sent, session, groups)
    }

    /** Everything handed to the packetiser so far. */
    ghost function Accepted(): seq<Bytes>
      reads this
    {
      Flat(groups) + current
    }

    constructor (session: Bytes, limit: U64)
      requires |session| == 10
      ensures Valid() && Accepted() == [] && sent == [] && sentMessages == 0
      ensures this.session == session && this.limit == limit
    {
      this.session, this.limit := session, limit;
      datagram := session + seq(10, i => 0);
      first, count, sentMessages, sent := 1, 0, 0, [];
      groups, current := [], [];
    }

    lemma Counts()
      requires Valid()
      ensures sentMessages == |Accepted()| <= limit
    {
    }

    /** Fill in the header and send what has been collected, if anything. */
    method SendDatagram()
      requires Valid()
      modifies this
      ensures Valid() && current == [] && |datagram| == HEADER_BYTES && Accepted() == old(Accepted())
      ensures sentMessages == old(sentMessages)
      ensures sent == old(sent) + if old(current) == [] then [] else [DataPacket(session, old(first), old(current))]
    {
      hide Consecutive, Frames, Flat, HeaderBytes, DataPacket, Sized;
      FewBlocks();
      if count == 0 {
        return;
      }
      var packet := FillHeader(datagram, first, count);
      SendsGroup(sent, session, groups, first, datagram, current);
      sent := sent + [packet];
      first := if first + count > U64_MAX then first + count - U64_MAX - 1 else first + count;
      groups, current := groups + [current], [];
      count := 0;
      datagram := datagram[..HEADER_BYTES];
    }

    lemma FewBlocks()
      requires Valid()
      ensures count <= 690 && Sized([])
      ensures count == 0 ==> |datagram| == HEADER_BYTES
    {
      FramesLength(current);
    }

    /** Frame one message, flushing first when it no longer fits; refused once the limit is reached. */
    method Add(message: Bytes) returns (taken: bool)
      requires Valid() && |message| <= U16_MAX
      modifies this
      ensures Valid() && taken == (old(sentMessages) < limit)
      ensures Accepted() == if taken then old(Accepted()) + [message] else old(Accepted())
      ensures var full := taken && old(|datagram|) + 2 + |message| > 1400 && old(current) != [];
              && sent == old(sent) + (if full then [DataPacket(session, old(first), old(current))] else [])
              && current == (if full then [] else old(current)) + (if taken then [message] else [])
    {
      hide Consecutive, Frames, Flat, HeaderBytes, DataPacket, Frame;
      if sentMessages >= limit {
        return false;
      }
      if |datagram| + |message| + 2 > DATAGRAM_BYTES {
        SendDatagram();
      }
      FewBlocks();
      datagram := AppendBlock(datagram, message, current);
      count := count + 1;
      sentMessages := sentMessages + 1;
      current := current + [message];
      taken := true;
    }

    /** Flush and close: the packets sent before the end packet deliver every accepted message. */
    method Finish() returns (end: Bytes)
      requires Valid()
      modifies this
      ensures Valid() && Flat(groups) == old(Accepted())
      ensures Consecutive(sent, session, groups) && |sent| == |groups|
      ensures end == HeaderBytes(Header(session, first, END_OF_SESSION))
      ensures sentMessages < U64_MAX ==> first == 1 + sentMessages
    {
      SendDatagram();
      assert Accepted() == Flat(groups);
      end := MakeRequestPacket(session, first, END_OF_SESSION);
    }
  }

  lemma NumberedAppend(first: int, a: seq<Bytes>, b: seq<Bytes>)
    ensures Numbered(first, a + b) == Numbered(first, a) + Numbered(first + |a|, b)
  {
  }

  lemma EmptyFlat()
    ensures Flat([]) == [] && Numbered(1, []) == []
  {
  }

  lemma NextGroup(sent: seq<Bytes>, session: Bytes, groups: seq<seq<Bytes>>, i: nat)
    requires Consecutive(sent, session, groups) && i < |sent|
    ensures Carries(sent[i], groups[i]) && HeaderOf(sent[i]).first == 1 + |Flat(groups[..i])|
    ensures Flat(groups[..i + 1]) == Flat(groups[..i]) + groups[i]
  {
    FlatSnoc(groups[..i], groups[i]);
    assert groups[..i + 1] == groups[..i] + [groups[i]];
  }

  /** Parse every datagram of a session in turn and collect the callbacks. */
  method Receive(sent: seq<Bytes>, ghost session: Bytes, ghost groups: seq<seq<Bytes>>) returns (visits: seq<Visit>)
    requires Consecutive(sent, session, groups) && |sent| == |groups|
    ensures visits == Numbered(1, Flat(groups))
  {
    hide Consecutive, Flat, Delivers, Carries, Refused, Numbered, HeaderOf, Kind;
    visits := [];
    EmptyFlat();
    assert groups[..0] == [];
    for i := 0 to |sent|
      invariant visits == Numbered(1, Flat(groups[..i]))
    {
      NextGroup(sent, session, groups, i);
      var result, more := Parse(sent[i]);
      NumberedAppend(1, Flat(groups[..i]), groups[i]);
      visits := visits + more;
    }
    assert groups[..|sent|] == groups;
  }

  /** Any message list survives packetising and parsing, numbered from one. */
  method Loopback(session: Bytes, messages: seq<Bytes>) returns (visits: seq<Visit>)
    requires |session| == 10 && Sized(messages) && |messages| <= U64_MAX
    ensures visits == Numbered(1, messages)
  {
    hide Packetiser.Valid, Packetiser.Accepted, Consecutive, Numbered, Flat;
    var sender := new Packetiser(session, |messages|);
    for i := 0 to |messages|
      invariant sender.Valid() && sender.sentMessages == i && sender.limit == |messages|
      invariant sender.Accepted() == messages[..i] && fresh(sender)
    {
      sender.Counts();
      var taken := sender.Add(messages[i]);
      sender.Counts();
      assert messages[..i + 1] == messages[..i] + [messages[i]];
    }
    var end := sender.Finish();
    assert messages[..|messages|] == messages;
    visits := Receive(sender.sent, sender.session, sender.groups);
  }
}
