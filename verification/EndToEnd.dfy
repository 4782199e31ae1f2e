/** From the packetiser to the recovery window and the book: a lossy, reordering, repeating channel in between. */
module EndToEnd {
  import opened Machine
  import opened MoldUdp64
  import opened Packetisers
  import opened Recovery
  import opened RecoveryLaws
  import opened RecoveryConfluence
  import opened RecoveryEnds
  import opened RecoverySlots
  import opened RecoveryWindows
  import opened FeedStories
  import opened MoldFeeds
  import Pipelines

  /** The i-th datagram of a packetised session. */
  ghost function Packet(sent: seq<Bytes>, groups: seq<seq<Bytes>>, i: nat): Datagram
    requires i < |sent| == |groups| && |sent[i]| >= HEADER_BYTES
  {
    Datagram(HeaderOf(sent[i]), groups[i])
  }

  lemma {:induction false} FlatSplits(groups: seq<seq<Bytes>>, i: nat)
    requires i < |groups|
    ensures |Flat(groups[..i])| + |groups[i]| <= |Flat(groups)|
    ensures forall j :: 0 <= j < |groups[i]| ==> Flat(groups)[|Flat(groups[..i])| + j] == groups[i][j]
    decreases |groups|
  {
    var n := |groups| - 1;
    if i < n {
      FlatSplits(groups[..n], i);
      assert groups[..n][..i] == groups[..i];
    }
  }

  lemma FlatOrder(groups: seq<seq<Bytes>>, i: nat, j: nat)
    requires i < j < |groups|
    ensures |Flat(groups[..i])| + |groups[i]| <= |Flat(groups[..j])|
  {
    FlatSplits(groups[..j], i);
    assert groups[..j][..i] == groups[..i];
  }

  lemma {:induction false} GroupOf(groups: seq<seq<Bytes>>, k: nat) returns (i: nat)
    requires k < |Flat(groups)|
    ensures i < |groups| && |Flat(groups[..i])| <= k < |Flat(groups[..i])| + |groups[i]|
  {
    var n := |groups| - 1;
    if k < |Flat(groups[..n])| {
      i := GroupOf(groups[..n], k);
      assert groups[..n][..i] == groups[..i];
    } else {
      i := n;
    }
  }

  /** The set holds exactly the session's datagrams. */
  ghost predicate IsSession(ds: set<Datagram>, sent: seq<Bytes>, groups: seq<seq<Bytes>>, session: Bytes)
  {
    && Consecutive(sent, session, groups)
    && (forall i {:trigger sent[i]} :: 0 <= i < |sent| ==> Packet(sent, groups, i) in ds)
    && (forall d :: d in ds ==> exists i {:trigger sent[i]} :: 0 <= i < |sent| && d == Packet(sent, groups, i))
  }

  /** The datagram carries a stretch of the message list, at its place. */
  ghost predicate Reads(d: Datagram, all: seq<Bytes>)
  {
    && WellSized(d) && 1 <= d.header.first < End(d) <= 1 + |all|
    && forall n :: Holds(d, n) ==> Content(d, n) == all[n - 1]
  }

  lemma Stretch(sent: seq<Bytes>, session: Bytes, groups: seq<seq<Bytes>>, i: nat)
    requires Consecutive(sent, session, groups) && i < |sent|
    ensures |sent[i]| >= HEADER_BYTES
    ensures var d := Packet(sent, groups, i);
            Reads(d, Flat(groups)) && d.header.session == session && d.header.first == 1 + |Flat(groups[..i])|
            && End(d) == d.header.first + |groups[i]|
  {
    hide Flat, HeaderOf, Boundary;
    assert Delivers(sent[i], session, 1 + |Flat(groups[..i])|, groups[i]);
    FlatSplits(groups, i);
    var d := Packet(sent, groups, i);
    forall n | Holds(d, n)
      ensures Content(d, n) == Flat(groups)[n - 1]
    {
      assert n - 1 == |Flat(groups[..i])| + (n - d.header.first);
    }
  }

  lemma Member(ds: set<Datagram>, sent: seq<Bytes>, groups: seq<seq<Bytes>>, session: Bytes, d: Datagram)
    returns (i: nat)
    requires IsSession(ds, sent, groups, session) && d in ds
    ensures i < |sent| && |sent[i]| >= HEADER_BYTES && |groups| == |sent| && d == Packet(sent, groups, i)
    ensures Reads(d, Flat(groups)) && d.header.session == session
    ensures d.header.first == 1 + |Flat(groups[..i])| && End(d) == d.header.first + |groups[i]|
  {
    hide Reads, Flat, Carries;
    var k :| 0 <= k < |sent| && d == Packet(sent, groups, k);
    i := k;
    Stretch(sent, session, groups, i);
  }

  lemma FirstIdentifies(ds: set<Datagram>, sent: seq<Bytes>, groups: seq<seq<Bytes>>, session: Bytes, d: Datagram,
                        e: Datagram)
    requires IsSession(ds, sent, groups, session) && d in ds && e in ds && d.header.first == e.header.first
    ensures d == e
  {
    hide IsSession, Flat;
    var i := Member(ds, sent, groups, session, d);
    var j := Member(ds, sent, groups, session, e);
    if i < j {
      FlatOrder(groups, i, j);
    } else if j < i {
      FlatOrder(groups, j, i);
    }
  }

  lemma SessionCoherent(ds: set<Datagram>, sent: seq<Bytes>, groups: seq<seq<Bytes>>, session: Bytes)
    requires IsSession(ds, sent, groups, session)
    ensures Coherent(ds)
  {
    hide IsSession, Flat;
    forall d | d in ds
      ensures Reads(d, Flat(groups))
    {
      var i := Member(ds, sent, groups, session, d);
    }
    forall d, e | d in ds && e in ds && d.header.first == e.header.first
      ensures d == e
    {
      FirstIdentifies(ds, sent, groups, session, d, e);
    }
  }

  lemma Spoken(ds: set<Datagram>, sent: seq<Bytes>, groups: seq<seq<Bytes>>, session: Bytes, n: int)
    requires IsSession(ds, sent, groups, session) && 1 <= n <= |Flat(groups)|
    ensures Covered(ds, n) && Says(ds, n, Flat(groups)[n - 1])
  {
    hide Flat, Delivers;
    var i := GroupOf(groups, n - 1);
    Stretch(sent, session, groups, i);
    var d := Packet(sent, groups, i);
    assert sent[i] == sent[i] && d in ds && Holds(d, n) && Content(d, n) == Flat(groups)[n - 1];
  }

  lemma SessionStream(ds: set<Datagram>, sent: seq<Bytes>, groups: seq<seq<Bytes>>, session: Bytes)
    requires IsSession(ds, sent, groups, session)
    ensures IsStream(ds, 1, 1 + |Flat(groups)|, Numbered(1, Flat(groups)))
  {
    hide IsSession, Flat, Says;
    var all := Flat(groups);
    forall n | 1 <= n < 1 + |all|
      ensures Covered(ds, n)
    {
      Spoken(ds, sent, groups, session, n);
    }
    var visits := Numbered(1, all);
    forall i | 0 <= i < |visits|
      ensures visits[i].sequence == 1 + i && Says(ds, 1 + i, visits[i].message)
    {
      Spoken(ds, sent, groups, session, 1 + i);
    }
    forall d | d in ds
      ensures !Holds(d, 1 + |all|)
    {
      var i := Member(ds, sent, groups, session, d);
    }
  }

  /**
   Whatever order the channel delivers the datagrams in, however often it repeats them and whatever
   else arrives in between, once each has arrived the window has handed out every message that was
   packetised, in order, once, numbered from one.
   */
  lemma ChannelIsTransparent(ds: set<Datagram>, sent: seq<Bytes>, groups: seq<seq<Bytes>>, session: Bytes,
                             slots: nat, bytes: nat, arrivals: seq<Option<Datagram>>)
    requires IsSession(ds, sent, groups, session) && 1 + |Flat(groups)| <= U64_MAX && |ds| <= slots
    requires forall d :: d in ds ==> SizeOf(d) <= bytes && SizeOf(d) <= U16_MAX && Some(d) in arrivals
    requires AllDrawn(ds, session, arrivals)
    ensures AllParsed(arrivals) && Quiet(Seeded(session, 1))
    ensures var h := Run(Seed(session, 1), slots, bytes, arrivals);
            h.delivered == Numbered(1, Flat(groups)) && h.window.next == 1 + |Flat(groups)|
  {
    hide IsSession, Flat, Coherent, IsStream, SizeOf;
    SessionCoherent(ds, sent, groups, session);
    SessionStream(ds, sent, groups, session);
    forall d | d in ds
      ensures Fits(d, session, bytes)
    {
      var i := Member(ds, sent, groups, session, d);
    }
    RunIsStream(session, 1, slots, bytes, ds, arrivals);
    var h := Run(Seed(session, 1), slots, bytes, arrivals);
    StreamUnique(ds, 1, h.window.next, h.delivered, 1 + |Flat(groups)|, Numbered(1, Flat(groups)));
  }

  lemma SessionDisjoint(ds: set<Datagram>, sent: seq<Bytes>, groups: seq<seq<Bytes>>, session: Bytes)
    requires IsSession(ds, sent, groups, session)
    ensures Disjoint(ds)
  {
    hide IsSession, Flat;
    forall d, e, n | d in ds && e in ds && Holds(d, n) && Holds(e, n)
      ensures d == e
    {
      var i := Member(ds, sent, groups, session, d);
      var j := Member(ds, sent, groups, session, e);
      if i < j {
        FlatOrder(groups, i, j);
      } else if j < i {
        FlatOrder(groups, j, i);
      }
    }
  }

  /** Once a packetised session has arrived every slot has been given back. */
  lemma NothingStaysBuffered(ds: set<Datagram>, sent: seq<Bytes>, groups: seq<seq<Bytes>>, session: Bytes,
                             slots: nat, bytes: nat, arrivals: seq<Option<Datagram>>)
    requires IsSession(ds, sent, groups, session) && 1 + |Flat(groups)| <= U64_MAX && |ds| <= slots
    requires forall d :: d in ds ==> SizeOf(d) <= bytes && SizeOf(d) <= U16_MAX && Some(d) in arrivals
    requires AllDrawn(ds, session, arrivals)
    ensures AllParsed(arrivals) && Quiet(Seeded(session, 1))
    ensures Run(Seed(session, 1), slots, bytes, arrivals).window.pending == map[]
  {
    hide IsSession, Flat, Disjoint, SizeOf, Faithful, Accounted, Run, Quiet, AllParsed, AllDrawn, Overtaken;
    ChannelIsTransparent(ds, sent, groups, session, slots, bytes, arrivals);
    SessionDisjoint(ds, sent, groups, session);
    DisjointLiesAhead(session, 1, slots, bytes, ds, arrivals);
    RunAccounted(session, 1, slots, bytes, ds, arrivals);
    FaithfulQuiet(Run(Seed(session, 1), slots, bytes, arrivals), 1);
    var w := Run(Seed(session, 1), slots, bytes, arrivals).window;
    if w.pending != map[] {
      var f := AMember(w.pending.Keys);
      InSet(w, ds, 1, f);
      var i := Member(ds, sent, groups, session, w.pending[f]);
    }
  }

  lemma InSet(w: Window, ds: set<Datagram>, start: int, f: int)
    requires Accounted(w, ds, start) && Quiet(w) && f in w.pending
    ensures w.pending[f] in ds && w.pending[f].header.first == f < End(w.pending[f])
  {
    assert Stored(w, f);
  }

  /**
   The same through a feed that began with an empty book at number one: while it is open, it is faulted
   exactly when the stream semantics refuses the message list that was packetised, and
   otherwise its book, ledger and volume are what that list means.
   */
  lemma BookIsMeaning(f: UftBookMoldFeed, ds: set<Datagram>, sent: seq<Bytes>, groups: seq<seq<Bytes>>)
    requires f.Valid() && f.start == 1 && f.begin == [] && f.fate.Open?
    requires IsSession(ds, sent, groups, f.session) && 1 + |Flat(groups)| <= U64_MAX && |ds| <= f.recovery.slots.Length
    requires forall d :: d in ds ==>
               SizeOf(d) <= f.recovery.maxDatagramBytes && SizeOf(d) <= U16_MAX && Some(d) in f.arrivals
    requires AllDrawn(ds, f.session, f.arrivals)
    ensures f.pipeline.state.Faulted? <==> Pipelines.Replay(f.pipeline.Config(), Flat(groups)) == None
    ensures !f.pipeline.state.Faulted? ==>
              f.pipeline.applied == Flat(groups)
              && Pipelines.Replay(f.pipeline.Config(), Flat(groups)) == Some(f.pipeline.Model())
  {
    hide Pipelines.UftOrderBookPipeline.Valid, RecoveryWindow.Valid, Pipelines.Replay, Flat, IsSession, SizeOf, Run,
         AllDrawn, Quiet, AllParsed;
    ChannelIsTransparent(ds, sent, groups, f.session, f.recovery.slots.Length, f.recovery.maxDatagramBytes, f.arrivals);
    assert [] + Texts(Numbered(1, Flat(groups))) == Flat(groups);
    if !f.pipeline.state.Faulted? {
      f.pipeline.VolumeIsNetTraded();
    }
  }

  /** The closing packet of a session announces its end before the number that would come next. */
  lemma ClosingPacket(session: Bytes, first: U64)
    requires |session| == 10
    ensures EndAt(Decode(HeaderBytes(Header(session, first, END_OF_SESSION))), session, first)
  {
    var h := Header(session, first, END_OF_SESSION);
    var p := HeaderBytes(h);
    HeaderRoundTrip(h, []);
    assert p + [] == p;
    assert p[HEADER_BYTES..] == [];
    assert Carries(p, []);
    DecodeIs(p, Datagram(h, []));
  }

  /**
   And when the closing packet has arrived as well, in whatever place, and no other end is announced: the
   feed has been closed exactly when the stream semantics accepts the message list, and then the book,
   ledger and volume it leaves are what the list means.
   */
  lemma ClosedBookIsMeaning(f: UftBookMoldFeed, ds: set<Datagram>, sent: seq<Bytes>, groups: seq<seq<Bytes>>)
    requires f.Valid() && f.start == 1 && f.begin == [] && !f.fate.Spoiled?
    requires IsSession(ds, sent, groups, f.session) && 1 + |Flat(groups)| <= U64_MAX && |ds| <= f.recovery.slots.Length
    requires forall d :: d in ds ==>
               SizeOf(d) <= f.recovery.maxDatagramBytes && SizeOf(d) <= U16_MAX && Some(d) in f.arrivals
    requires AllDrawn(ds, f.session, f.arrivals) && OneEnd(f.arrivals, f.session, 1 + |Flat(groups)|)
    requires Announced(f.arrivals, f.session, 1 + |Flat(groups)|)
    ensures f.pipeline.state.Faulted?
    ensures f.fate.Closed? <==> Pipelines.Replay(f.pipeline.Config(), Flat(groups)) != None
    ensures f.fate.Closed? ==>
              f.pipeline.applied == Flat(groups)
              && Pipelines.Replay(f.pipeline.Config(), Flat(groups)) == Some(f.pipeline.Model())
  {
    hide Pipelines.UftOrderBookPipeline.Valid, RecoveryWindow.Valid, Pipelines.Replay, Flat, IsSession, SizeOf, Run,
         AllDrawn, Quiet, AllParsed, Announced, Signalled;
    var all := Flat(groups);
    ChannelIsTransparent(ds, sent, groups, f.session, f.recovery.slots.Length, f.recovery.maxDatagramBytes, f.arrivals);
    ReachedEndSignalled(Seed(f.session, 1), f.recovery.slots.Length, f.recovery.maxDatagramBytes, f.arrivals,
                        1 + |all|);
    var visits := Numbered(1, all);
    assert [] + Texts(visits) == all && visits[..|visits|] == visits;
  }
}
