/** Arrival order and repetition do not matter: the recovery window always rebuilds the same stream. */
module RecoveryConfluence {
  import opened Machine
  import opened MoldUdp64
  import opened Recovery
  import opened RecoveryLaws

  /** A datagram the window can hold: data of this session, in range and small enough. */
  ghost predicate Fits(d: Datagram, session: Bytes, bytes: nat)
  {
    WellSized(d) && d.header.session == session && End(d) <= U64_MAX && SizeOf(d) <= bytes && SizeOf(d) <= U16_MAX
  }

  /** Data packets that never contradict each other about a number. */
  ghost predicate Consistent(ds: set<Datagram>)
  {
    && (forall d :: d in ds ==> WellSized(d))
    && (forall d, e, n {:trigger Holds(d, n), Holds(e, n)} :: d in ds && e in ds && Holds(d, n) && Holds(e, n) ==>
          Content(d, n) == Content(e, n))
  }

  /** Datagrams named by their first number that never contradict each other. */
  ghost predicate Coherent(ds: set<Datagram>)
  {
    Consistent(ds) && forall d, e :: d in ds && e in ds && d.header.first == e.header.first ==> d == e
  }

  /** Control packets, other sessions, malformed and overflowing packets may be mixed in freely. */
  ghost predicate Drawn(ds: set<Datagram>, session: Bytes, arrival: Option<Datagram>)
  {
    arrival.Some? ==>
      var d := arrival.value;
      Parsed(d) && (Kind(d.header).Data? && d.header.session == session && End(d) <= U64_MAX ==> d in ds)
  }

  ghost predicate AllDrawn(ds: set<Datagram>, session: Bytes, arrivals: seq<Option<Datagram>>)
  {
    forall i :: 0 <= i < |arrivals| ==> Drawn(ds, session, arrivals[i])
  }

  lemma {:induction false} InjectionBounds(m: map<int, Datagram>, s: set<Datagram>)
    requires forall f :: f in m ==> m[f] in s && m[f].header.first == f
    ensures |m| <= |s|
    decreases |m|
  {
    if m != map[] {
      var f := AMember(m.Keys);
      assert m.Keys == {f} + (m - {f}).Keys;
      InjectionBounds(m - {f}, s - {m[f]});
    }
  }

  /** The window is big enough: no datagram of the set can be turned away. */
  lemma NeverFull(h: History, start: int, ds: set<Datagram>, d: Datagram)
    requires Faithful(h, start) && h.accepted <= ds && d in ds && d.header.first !in h.window.pending
    ensures |h.window.pending| < |ds|
  {
    var pending := h.window.pending;
    forall f | f in pending
      ensures pending[f] in ds - {d} && pending[f].header.first == f
    {
      assert Stored(h.window, f);
    }
    InjectionBounds(pending, ds - {d});
  }

  /** Some accepted datagram starts where d starts. */
  ghost predicate Stands(accepted: set<Datagram>, d: Datagram)
  {
    exists e :: e in accepted && e.header.first == d.header.first
  }

  /**
   After its arrival a datagram is accepted, or everything in it had been delivered already, or, beyond
   the start, another one under its number was accepted instead.
   */
  ghost predicate Arrived(h: History, start: int, d: Datagram)
  {
    d in h.accepted || End(d) <= h.window.next || (d.header.first > start && Stands(h.accepted, d))
  }

  lemma StartBefore(h: History, start: int)
    requires Faithful(h, start)
    ensures start <= h.window.next
  {
  }

  lemma ArrivalSettles(h: History, start: int, slots: nat, bytes: nat, ds: set<Datagram>, d: Datagram)
    requires Faithful(h, start) && h.accepted <= ds && d in ds && |ds| <= slots
    requires Fits(d, h.window.session, bytes)
    ensures Arrived(Extended(h, slots, bytes, Some(d)), start, d)
  {
    hide Target, Ask, Drain, Settle, SizeOf, Tail, Spell, InOrderFrom;
    JudgeBySpan(h.window.next, d.header);
    StartBefore(h, start);
    if Judge(h.window.next, d.header).state.Gap? {
      if d.header.first in h.window.pending {
        assert Stored(h.window, d.header.first);
        assert h.window.pending[d.header.first] in h.accepted;
      } else {
        NeverFull(h, start, ds, d);
      }
    }
  }

  ghost function Seed(session: Bytes, first: int): History {
    History(Seeded(session, first), {}, [])
  }

  lemma SeedFaithful(session: Bytes, first: U64)
    ensures Faithful(Seed(session, first), first)
  {
  }

  ghost predicate Progress(h: History, start: int, ds: set<Datagram>, session: Bytes, arrivals: seq<Option<Datagram>>)
  {
    && Faithful(h, start) && h.window.session == session && h.accepted <= ds
    && forall i :: 0 <= i < |arrivals| && arrivals[i].Some? && arrivals[i].value in ds ==>
         Arrived(h, start, arrivals[i].value)
  }

  lemma StepProgress(h: History, start: int, slots: nat, bytes: nat, ds: set<Datagram>, session: Bytes,
                     before: seq<Option<Datagram>>, arrival: Option<Datagram>)
    requires Progress(h, start, ds, session, before) && Drawn(ds, session, arrival)
    requires |ds| <= slots && forall d :: d in ds ==> Fits(d, session, bytes)
    ensures Progress(Extended(h, slots, bytes, arrival), start, ds, session, before + [arrival])
  {
    hide Target, Ask, Drain, Settle, SizeOf, Tail, Spell, InOrderFrom, Faithful, Fits, Parsed;
    StepKeepsSession(h, start, slots, bytes, ds, session, arrival);
    IngestExplains(h, start, slots, bytes, arrival);
    if arrival.Some? && arrival.value in ds {
      ArrivalSettles(h, start, slots, bytes, ds, arrival.value);
    }
  }

  lemma StepKeepsSession(h: History, start: int, slots: nat, bytes: nat, ds: set<Datagram>, session: Bytes,
                         arrival: Option<Datagram>)
    requires Faithful(h, start) && h.window.session == session && h.accepted <= ds && Drawn(ds, session, arrival)
    ensures arrival.Some? ==> Parsed(arrival.value)
    ensures Quiet(h.window)
    ensures var h' := Extended(h, slots, bytes, arrival);
            h'.window.session == session && h.accepted <= h'.accepted <= ds && h.window.next <= h'.window.next
  {
    hide Target, Ask, Drain, Settle, SizeOf, Tail, Spell, InOrderFrom;
    IngestKeeps(h.window, slots, bytes, arrival);
    if arrival.Some? {
      JudgeBySpan(h.window.next, arrival.value.header);
    }
  }

  lemma {:induction false} RunProgress(session: Bytes, start: U64, slots: nat, bytes: nat, ds: set<Datagram>,
                                       arrivals: seq<Option<Datagram>>)
    requires AllDrawn(ds, session, arrivals) && |ds| <= slots
    requires forall d :: d in ds ==> Fits(d, session, bytes)
    ensures AllParsed(arrivals) && Quiet(Seeded(session, start))
    ensures Progress(Run(Seed(session, start), slots, bytes, arrivals), start, ds, session, arrivals)
    decreases |arrivals|
  {
    hide Faithful, Fits, Extended, Arrived, Parsed;
    SeedFaithful(session, start);
    FaithfulQuiet(Seed(session, start), start);
    if arrivals != [] {
      var before := arrivals[..|arrivals| - 1];
      RunProgress(session, start, slots, bytes, ds, before);
      StepProgress(Run(Seed(session, start), slots, bytes, before), start, slots, bytes, ds, session,
                   before, arrivals[|arrivals| - 1]);
      assert arrivals == before + [arrivals[|arrivals| - 1]];
    }
  }

  lemma FaithfulQuiet(h: History, start: int)
    requires Faithful(h, start)
    ensures Quiet(h.window)
  {
  }

  /** The messages the set determines: each number up to the first hole, as any datagram holding it says. */
  ghost predicate IsStream(ds: set<Datagram>, start: int, next: int, delivered: seq<Visit>)
  {
    LeastUncovered(ds, start, next) && InOrderFrom(ds, start, next, delivered)
  }

  lemma StreamUnique(ds: set<Datagram>, start: int, n1: int, v1: seq<Visit>, n2: int, v2: seq<Visit>)
    requires Coherent(ds) && IsStream(ds, start, n1, v1) && IsStream(ds, start, n2, v2)
    ensures n1 == n2 && v1 == v2
  {
    assert n1 == n2 by {
      if n1 < n2 {
        assert false;
      } else if n2 < n1 {
        assert false;
      }
    }
    forall i | 0 <= i < |v1|
      ensures v1[i] == v2[i]
    {
      assert Says(ds, start + i, v1[i].message) && Says(ds, start + i, v2[i].message);
    }
  }

  /** A run in which every datagram of the set arrives delivers exactly the stream of the set. */
  lemma RunIsStream(session: Bytes, start: U64, slots: nat, bytes: nat, ds: set<Datagram>,
                    arrivals: seq<Option<Datagram>>)
    requires AllDrawn(ds, session, arrivals) && Coherent(ds) && |ds| <= slots
    requires forall d :: d in ds ==> Fits(d, session, bytes) && Some(d) in arrivals
    ensures AllParsed(arrivals) && Quiet(Seeded(session, start))
    ensures var h := Run(Seed(session, start), slots, bytes, arrivals);
            IsStream(ds, start, h.window.next, h.delivered)
  {
    RunProgress(session, start, slots, bytes, ds, arrivals);
    var h := Run(Seed(session, start), slots, bytes, arrivals);
    NextIsLeastUncovered(h, start);
    MoreAccepted(h.accepted, ds, start, h.window.next, h.delivered);
    forall d | d in ds
      ensures !Holds(d, h.window.next)
    {
      assert Some(d) in arrivals;
      var i :| 0 <= i < |arrivals| && arrivals[i] == Some(d);
      assert Arrived(h, start, d);
      assert d in h.accepted ==> !Holds(d, h.window.next);
    }
    forall n | start <= n < h.window.next
      ensures Covered(ds, n)
    {
      assert Covered(h.accepted, n);
    }
  }

  /**
   Confluence: two arrival orders of the same datagrams, with any repetitions and any control,
   foreign or malformed packets in between, and even with different window sizes, deliver the same
   messages and expect the same next number.
   */
  lemma Confluence(session: Bytes, start: U64, ds: set<Datagram>,
                   slotsA: nat, bytesA: nat, a: seq<Option<Datagram>>, slotsB: nat, bytesB: nat,
                   b: seq<Option<Datagram>>)
    requires Coherent(ds) && |ds| <= slotsA && |ds| <= slotsB
    requires forall d :: d in ds ==> Fits(d, session, bytesA) && Fits(d, session, bytesB)
    requires AllDrawn(ds, session, a) && AllDrawn(ds, session, b)
    requires forall d :: d in ds ==> Some(d) in a && Some(d) in b
    ensures AllParsed(a) && AllParsed(b) && Quiet(Seeded(session, start))
    ensures var ha, hb := Run(Seed(session, start), slotsA, bytesA, a), Run(Seed(session, start), slotsB, bytesB, b);
            ha.delivered == hb.delivered && ha.window.next == hb.window.next
  {
    RunIsStream(session, start, slotsA, bytesA, ds, a);
    RunIsStream(session, start, slotsB, bytesB, ds, b);
    var ha, hb := Run(Seed(session, start), slotsA, bytesA, a), Run(Seed(session, start), slotsB, bytesB, b);
    StreamUnique(ds, start, ha.window.next, ha.delivered, hb.window.next, hb.delivered);
  }

  lemma OneBuffered(w: Window, d: Datagram)
    requires Sound(w) && w.pending == map[w.next := d] && Holds(d, w.next)
    ensures Drain(w).0.next == End(d)
  {
    PickIs(w, w.next);
    TakeSound(w, w.next);
    assert Pick(Take(w, w.next)) == None;
  }

  lemma HeadThenBuffered(w: Window, head: Datagram, d: Datagram)
    requires Quiet(w) && w.initialized && WellSized(head) && Holds(head, w.next) && End(head) <= U64_MAX
    requires w.pending == map[End(head) := d] && Holds(d, End(head))
    ensures Advance(w, head).window.next == End(d)
  {
    hide Drain, Target;
    Restamped(w, End(head), false);
    OneBuffered(w.(next := End(head), outstanding := false), d);
  }

  /**
   First numbers must identify the datagrams: with a short and a long datagram both starting at 2, the
   one that arrives first decides how far the stream gets once number 1 arrives.
   */
  lemma IdentityNeeded(session: Bytes)
    ensures var head := Datagram(Header(session, 1, 1), [[]]);
            var short, long := Datagram(Header(session, 2, 1), [[]]), Datagram(Header(session, 2, 3), [[], [], []]);
            var w := Seeded(session, 1);
            && Quiet(w)
            && var s1, l1 := Ahead(w, 2, 2048, short).window, Ahead(w, 2, 2048, long).window;
               && Ahead(s1, 2, 2048, long).status.Duplicated? && Ahead(l1, 2, 2048, short).status.Duplicated?
               && var s2, l2 := Ahead(s1, 2, 2048, long).window, Ahead(l1, 2, 2048, short).window;
                  && Quiet(s2) && Quiet(l2) && Holds(head, s2.next) && Holds(head, l2.next)
                  && Advance(s2, head).window.next == 3 && Advance(l2, head).window.next == 5
  {
    hide Target, Spell, Ask, Drain, Settle;
    var head := Datagram(Header(session, 1, 1), [[]]);
    var short, long := Datagram(Header(session, 2, 1), [[]]), Datagram(Header(session, 2, 3), [[], [], []]);
    var w := Seeded(session, 1);
    Measure();
    Race(w, head, short, long);
    Race(w, head, long, short);
  }

  lemma Measure()
    ensures BlockBytes([[]]) == 2 && BlockBytes([[], [], []]) == 6
  {
    var three: seq<Bytes> := [[], [], []];
    assert three[..2][..1] == [[]];
  }

  /** The first to arrive under its number is the one delivered. */
  lemma Race(w: Window, head: Datagram, d: Datagram, late: Datagram)
    requires w == Seeded(d.header.session, 1) && WellSized(head) && Holds(head, 1) && End(head) == 2
    requires WellSized(d) && WellSized(late) && d.header.first == late.header.first == 2
    requires d.header.session == late.header.session && End(d) <= U64_MAX && End(late) <= U64_MAX
    requires SizeOf(d) <= 2048 && SizeOf(late) <= 2048 && Holds(d, 2)
    ensures Quiet(w)
    ensures var w1 := Ahead(w, 2, 2048, d).window;
            var again := Ahead(w1, 2, 2048, late);
            && again.status.Duplicated? && Quiet(again.window) && again.window.next == 1 && again.window.initialized
            && Advance(again.window, head).window.next == End(d)
  {
    hide Target, Spell, Ask, Drain, Settle, SizeOf, Sound, NothingReady, Marks, Asked, Advance;
    SeedFaithful(d.header.session, 1);
    FaithfulQuiet(Seed(d.header.session, 1), 1);
    AheadKeeps(w, 2, 2048, d);
    var w1 := Ahead(w, 2, 2048, d).window;
    AheadKeeps(w1, 2, 2048, late);
    HeadThenBuffered(Ahead(w1, 2, 2048, late).window, head, d);
  }
}
