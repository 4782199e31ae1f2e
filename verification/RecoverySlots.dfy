/** Slots that are never given back: buffered datagrams that the stream has passed, and when there can be any. */
module RecoverySlots {
  import opened Collections
  import opened Machine
  import opened MoldUdp64
  import opened Recovery
  import opened RecoveryLaws
  import opened RecoveryConfluence
  import opened RecoveryOrder

  // ---- Once passed, a buffered datagram stays ----

  /** A buffered datagram that the stream has passed entirely. */
  predicate Overtaken(w: Window, f: int) {
    f in w.pending && End(w.pending[f]) <= w.next
  }

  lemma {:induction false} DrainValues(w: Window)
    requires Sound(w)
    ensures var r := Drain(w).0; forall f :: f in r.pending ==> f in w.pending && r.pending[f] == w.pending[f]
    decreases |w.pending|
  {
    if Pick(w).Some? {
      var f := Pick(w).value;
      Smaller(w.pending, f);
      TakeSound(w, f);
      DrainValues(Take(w, f));
    }
  }

  lemma AdvanceSettles(w: Window, d: Datagram)
    requires Quiet(w) && Kind(d.header).Data? && Holds(d, w.next) && |d.messages| == d.header.count && End(d) <= U64_MAX
    ensures var w0 := w.(next := End(d), outstanding := false);
            Sound(w0) && Advance(w, d).window.next == Drain(w0).0.next
            && Advance(w, d).window.pending == Drain(w0).0.pending
  {
    hide Target, Drain;
    Restamped(w, End(d), false);
  }

  /** No call, whatever arrives, gives the slot of a passed datagram back. */
  lemma OvertakenCall(w: Window, slots: nat, bytes: nat, arrival: Option<Datagram>, f: int)
    requires Quiet(w) && w.initialized && Overtaken(w, f) && (arrival.Some? ==> Parsed(arrival.value))
    ensures var w' := Ingest(w, slots, bytes, arrival).window; Overtaken(w', f) && w'.pending[f] == w.pending[f]
  {
    hide Sound, NothingReady, Marks, Asked, Target, Drain, Advance, Ahead;
    IngestKeeps(w, slots, bytes, arrival);
    if arrival.Some? && w.session == arrival.value.header.session {
      var d := arrival.value;
      JudgeBySpan(w.next, d.header);
      if Judge(w.next, d.header).state.Gap? {
        AheadKeeps(w, slots, bytes, d);
        NotBetween(w, f);
      } else if MayProcess(Judge(w.next, d.header)) && Kind(d.header).Data? {
        AdvanceSettles(w, d);
        OvertakenStays(w.(next := End(d), outstanding := false), f);
      }
    }
  }

  lemma NotBetween(w: Window, f: int)
    requires Sound(w) && f in w.pending
    ensures f < End(w.pending[f])
  {
    assert Stored(w, f);
  }

  /** Over every run the slot stays taken. */
  lemma {:induction false} OvertakenForever(h: History, slots: nat, bytes: nat, arrivals: seq<Option<Datagram>>, f: int)
    requires Quiet(h.window) && h.window.initialized && AllParsed(arrivals) && Overtaken(h.window, f)
    ensures var w := Run(h, slots, bytes, arrivals).window;
            Quiet(w) && w.initialized && Overtaken(w, f) && w.pending[f] == h.window.pending[f]
    decreases |arrivals|
  {
    hide Ingest, Quiet;
    if arrivals != [] {
      var n := |arrivals| - 1;
      OvertakenForever(h, slots, bytes, arrivals[..n], f);
      var w := Run(h, slots, bytes, arrivals[..n]).window;
      OvertakenCall(w, slots, bytes, arrivals[n], f);
      IngestKeeps(w, slots, bytes, arrivals[n]);
    }
  }

  /** Every slot is taken by a datagram that the stream has passed. */
  ghost predicate Clogged(w: Window, slots: nat)
  {
    |w.pending| >= slots && forall f :: f in w.pending ==> Overtaken(w, f)
  }

  /** A clogged window refuses every datagram ahead of the stream. */
  lemma CloggedRefuses(w: Window, slots: nat, bytes: nat, d: Datagram)
    requires Quiet(w) && w.initialized && Clogged(w, slots)
    requires WellSized(d) && d.header.session == w.session && End(d) <= U64_MAX && w.next < d.header.first
    ensures var s := Ingest(w, slots, bytes, Some(d));
            && s.status == (if SizeOf(d) > bytes || SizeOf(d) > U16_MAX then DatagramTooLarge else ReorderWindowFull)
            && s.log == [] && s.window.pending == w.pending && s.window.next == w.next
  {
    hide Sound, NothingReady, Marks, Asked, SizeOf, Target;
    if d.header.first in w.pending {
      NotBetween(w, d.header.first);
    }
    RefusedRaisesMark(w, slots, bytes, d);
  }

  lemma CloggedIdle(w: Window, slots: nat, next: int)
    requires Sound(w) && Clogged(w, slots) && w.next <= next <= U64_MAX
    ensures var w0 := w.(next := next, outstanding := false); Sound(w0) && Drain(w0).0 == w0
  {
    Restamped(w, next, false);
    var w0 := w.(next := next, outstanding := false);
    assert forall f :: f in w0.pending ==> Overtaken(w, f) && !Holds(w0.pending[f], next);
    assert Pick(w0) == None;
  }

  lemma CloggedCall(w: Window, slots: nat, bytes: nat, arrival: Option<Datagram>)
    requires Quiet(w) && w.initialized && Clogged(w, slots) && (arrival.Some? ==> Parsed(arrival.value))
    ensures var w' := Ingest(w, slots, bytes, arrival).window; Clogged(w', slots) && w'.pending == w.pending
  {
    hide Sound, NothingReady, Marks, Asked, Target, Drain, Advance, Ahead, SizeOf;
    var w' := Ingest(w, slots, bytes, arrival).window;
    forall f | f in w.pending
      ensures Overtaken(w', f) && w'.pending[f] == w.pending[f]
    {
      OvertakenCall(w, slots, bytes, arrival, f);
    }
    if arrival.Some? && w.session == arrival.value.header.session {
      var d := arrival.value;
      JudgeBySpan(w.next, d.header);
      if Judge(w.next, d.header).state.Gap? {
        if Kind(d.header).Data? {
          CloggedRefuses(w, slots, bytes, d);
        } else {
          AheadKeeps(w, slots, bytes, d);
        }
      } else if MayProcess(Judge(w.next, d.header)) && Kind(d.header).Data? {
        AdvanceSettles(w, d);
        CloggedIdle(w, slots, End(d));
      }
    }
  }

  /** A clogged window stays clogged, with the same datagrams, over every run. */
  lemma {:induction false} CloggedForever(h: History, slots: nat, bytes: nat, arrivals: seq<Option<Datagram>>)
    requires Quiet(h.window) && h.window.initialized && Clogged(h.window, slots) && AllParsed(arrivals)
    ensures var w := Run(h, slots, bytes, arrivals).window;
            Quiet(w) && w.initialized && Clogged(w, slots) && w.pending == h.window.pending
    decreases |arrivals|
  {
    hide Ingest, Quiet, Clogged;
    if arrivals != [] {
      var n := |arrivals| - 1;
      CloggedForever(h, slots, bytes, arrivals[..n]);
      var w := Run(h, slots, bytes, arrivals[..n]).window;
      CloggedCall(w, slots, bytes, arrivals[n]);
      IngestKeeps(w, slots, bytes, arrivals[n]);
    }
  }

  /**
   A clogged window is reachable: with one slot, data at 3 is buffered, and then data for 1 to 5 passes
   over it.
   */
  lemma ClogExample(session: Bytes, m: Bytes, bytes: nat)
    requires HEADER_BYTES + 2 + |m| <= bytes && HEADER_BYTES + 2 + |m| <= U16_MAX
    ensures var one, five := Datagram(Header(session, 3, 1), [m]), Datagram(Header(session, 1, 5), [m, m, m, m, m]);
            var arrivals := [Some(one), Some(five)];
            && Quiet(Seeded(session, 1)) && AllParsed(arrivals)
            && var w := Run(Seed(session, 1), 1, bytes, arrivals).window;
               w.next == 6 && w.pending == map[3 := one] && Clogged(w, 1)
  {
    hide Target, Spell, Ask, SizeOf, Sound, NothingReady, Marks, Asked;
    var one, five := Datagram(Header(session, 3, 1), [m]), Datagram(Header(session, 1, 5), [m, m, m, m, m]);
    var h := Seed(session, 1);
    SeedFaithful(session, 1);
    FaithfulQuiet(h, 1);
    OneBlock(one, m);
    RunSnoc(h, 1, bytes, [], Some(one));
    RunSnoc(h, 1, bytes, [Some(one)], Some(five));
    assert [] + [Some(one)] == [Some(one)] && [Some(one)] + [Some(five)] == [Some(one), Some(five)];
    var w := Seeded(session, 1);
    JudgeBySpan(1, one.header);
    JudgeBySpan(1, five.header);
    AheadKeeps(w, 1, bytes, one);
    var w1 := Ahead(w, 1, bytes, one).window;
    AdvanceSettles(w1, five);
    assert Pick(w1.(next := 6, outstanding := false)) == None;
  }

  lemma OneBlock(d: Datagram, m: Bytes)
    requires d.messages == [m]
    ensures SizeOf(d) == HEADER_BYTES + 2 + |m|
  {
    assert BlockBytes(d.messages[..0]) == 0;
  }

  // ---- When a datagram can be passed while it is buffered ----

  /** Numbers the stream can stop at: the start, and the end of a datagram that holds one of them. */
  ghost predicate Reached(ds: set<Datagram>, start: int, n: int)
    decreases n - start
  {
    n == start
    || exists m, d {:trigger Holds(d, m)} ::
         start <= m < n && d in ds && Holds(d, m) && End(d) == n && Reached(ds, start, m)
  }

  /** From a stop before the datagram e starts, c moves the stream on. */
  ghost predicate Passes(ds: set<Datagram>, start: int, e: Datagram, m: int, c: Datagram)
  {
    c in ds && Holds(c, m) && m < e.header.first && Reached(ds, start, m)
  }

  /** A datagram that starts after e holds this number. */
  ghost predicate HeldLater(ds: set<Datagram>, e: Datagram, n: int)
  {
    exists x :: x in ds && x.header.first > e.header.first && Holds(x, n)
  }

  /** Up to the end of e every number is held by a datagram that starts after it. */
  ghost predicate Filled(ds: set<Datagram>, e: Datagram, from: int, to: int)
  {
    forall n :: from <= n < to && n < End(e) ==> HeldLater(ds, e, n)
  }

  /**
   The condition, on the set alone: some datagram moves the stream from before e into e or past it, and
   from there to the end of e datagrams that start after e take over.
   */
  ghost predicate Skippable(ds: set<Datagram>, start: int, e: Datagram)
  {
    exists m, c :: Passes(ds, start, e, m, c) && Filled(ds, e, End(c), End(e))
  }

  /** On the way past e: still before it, or inside it by a datagram that came from before. */
  ghost predicate Bypassing(ds: set<Datagram>, start: int, e: Datagram, next: int)
  {
    next < e.header.first || exists m, c :: Passes(ds, start, e, m, c) && Filled(ds, e, End(c), next)
  }

  lemma ReachedOn(ds: set<Datagram>, start: int, n: int, d: Datagram)
    requires Reached(ds, start, n) && d in ds && Holds(d, n)
    ensures Reached(ds, start, End(d)) && start <= n
  {
  }

  lemma BypassStep(ds: set<Datagram>, start: int, e: Datagram, n: int, d: Datagram)
    requires Bypassing(ds, start, e, n) && Reached(ds, start, n) && d in ds && Holds(d, n)
    requires Holds(e, n) ==> d.header.first > e.header.first
    ensures Bypassing(ds, start, e, End(d))
  {
    if n < e.header.first {
      assert Passes(ds, start, e, n, d) && Filled(ds, e, End(d), End(d));
    } else {
      var m, c :| Passes(ds, start, e, m, c) && Filled(ds, e, End(c), n);
      forall k | End(c) <= k < End(d) && k < End(e)
        ensures HeldLater(ds, e, k)
      {
        if k >= n {
          assert Holds(d, k);
        }
      }
      assert Filled(ds, e, End(c), End(d));
    }
  }

  /** Draining stops at a reachable number, and passes a datagram that it leaves buffered only in that way. */
  lemma {:induction false} DrainBypasses(w: Window, ds: set<Datagram>, start: int, e: Datagram)
    requires Sound(w) && Reached(ds, start, w.next) && forall f :: f in w.pending ==> w.pending[f] in ds
    ensures Reached(ds, start, Drain(w).0.next)
    ensures var r := Drain(w).0;
            Bypassing(ds, start, e, w.next) && e.header.first in r.pending && r.pending[e.header.first] == e ==>
              Bypassing(ds, start, e, r.next)
    decreases |w.pending|
  {
    hide Reached, Bypassing, Sound;
    if Pick(w).Some? {
      var f := Pick(w).value;
      Smaller(w.pending, f);
      TakeSound(w, f);
      PickStored(w, f);
      var d := w.pending[f];
      ReachedOn(ds, start, w.next, d);
      DrainBypasses(Take(w, f), ds, start, e);
      DrainValues(Take(w, f));
      var r := Drain(w).0;
      if Bypassing(ds, start, e, w.next) && e.header.first in r.pending && r.pending[e.header.first] == e {
        BypassStep(ds, start, e, w.next, d);
      }
    }
  }

  lemma PickStored(w: Window, f: int)
    requires Sound(w) && IsPick(w, f)
    ensures w.pending[f].header.first == f && Holds(w.pending[f], w.next)
  {
    assert Stored(w, f);
  }

  /** The stream is at a reachable number, and only skippable datagrams have been passed while buffered. */
  ghost predicate Accounted(w: Window, ds: set<Datagram>, start: int)
  {
    && Reached(ds, start, w.next)
    && forall f :: f in w.pending ==>
         w.pending[f] in ds && (Overtaken(w, f) ==> Skippable(ds, start, w.pending[f]))
  }

  lemma AdvanceAccounted(w: Window, ds: set<Datagram>, start: int, d: Datagram)
    requires Quiet(w) && Accounted(w, ds, start) && d in ds && WellSized(d) && Holds(d, w.next) && End(d) <= U64_MAX
    ensures Accounted(Advance(w, d).window, ds, start)
  {
    hide Advance, Drain, Reached, Bypassing, Skippable, Marks, Asked, Target;
    var w0, r := w.(next := End(d), outstanding := false), Advance(w, d).window;
    AdvanceSettles(w, d);
    DrainValues(w0);
    ReachedOn(ds, start, w.next, d);
    DrainBypasses(w0, ds, start, d);
    forall f | f in r.pending
      ensures r.pending[f] in ds && (Overtaken(r, f) ==> Skippable(ds, start, r.pending[f]))
    {
      var e := w.pending[f];
      assert Stored(w, f);
      if Overtaken(r, f) && !Overtaken(w, f) {
        StillBefore(ds, start, e, w.next);
        BypassStep(ds, start, e, w.next, d);
        DrainBypasses(w0, ds, start, e);
        BypassedSkips(ds, start, e, r.next);
      }
    }
  }

  lemma StillBefore(ds: set<Datagram>, start: int, e: Datagram, n: int)
    requires n < e.header.first
    ensures Bypassing(ds, start, e, n)
  {
  }

  lemma BypassedSkips(ds: set<Datagram>, start: int, e: Datagram, n: int)
    requires Bypassing(ds, start, e, n) && End(e) <= n && e.header.first < End(e)
    ensures Skippable(ds, start, e)
  {
    var m, c :| Passes(ds, start, e, m, c) && Filled(ds, e, End(c), n);
    assert Filled(ds, e, End(c), End(e));
  }

  lemma CallAccounted(h: History, start: int, slots: nat, bytes: nat, ds: set<Datagram>, session: Bytes,
                      arrival: Option<Datagram>)
    requires Faithful(h, start) && h.window.session == session && h.accepted <= ds && Drawn(ds, session, arrival)
    requires Accounted(h.window, ds, start)
    ensures arrival.Some? ==> Parsed(arrival.value)
    ensures Quiet(h.window) && Accounted(Extended(h, slots, bytes, arrival).window, ds, start)
  {
    hide Advance, Ahead, Reached, Skippable, Sound, Marks, Asked, NothingReady, Spell, InOrderFrom;
    var w := h.window;
    IngestKeeps(w, slots, bytes, arrival);
    if arrival.Some? && session == arrival.value.header.session {
      var d := arrival.value;
      JudgeBySpan(w.next, d.header);
      if Judge(w.next, d.header).state.Gap? {
        AheadKeeps(w, slots, bytes, d);
      } else if MayProcess(Judge(w.next, d.header)) && Kind(d.header).Data? {
        AdvanceAccounted(w, ds, start, d);
      }
    }
  }

  /** Over every run of datagrams of the set, whatever the window's size. */
  lemma {:induction false} RunAccounted(session: Bytes, start: U64, slots: nat, bytes: nat, ds: set<Datagram>,
                                        arrivals: seq<Option<Datagram>>)
    requires AllDrawn(ds, session, arrivals)
    ensures AllParsed(arrivals) && Quiet(Seeded(session, start))
    ensures var h := Run(Seed(session, start), slots, bytes, arrivals);
            Faithful(h, start) && h.window.session == session && h.accepted <= ds && Accounted(h.window, ds, start)
    decreases |arrivals|
  {
    hide Faithful, Extended, Accounted, Quiet, Parsed;
    SeedFaithful(session, start);
    FaithfulQuiet(Seed(session, start), start);
    if arrivals == [] {
      SeedAccounted(session, start, ds);
    } else {
      var before, last := arrivals[..|arrivals| - 1], arrivals[|arrivals| - 1];
      RunAccounted(session, start, slots, bytes, ds, before);
      var h := Run(Seed(session, start), slots, bytes, before);
      CallAccounted(h, start, slots, bytes, ds, session, last);
      StepKeepsSession(h, start, slots, bytes, ds, session, last);
      IngestExplains(h, start, slots, bytes, last);
    }
  }

  lemma SeedAccounted(session: Bytes, start: int, ds: set<Datagram>)
    ensures Accounted(Seeded(session, start), ds, start)
  {
  }

  /** The arrivals leave e buffered and passed. */
  ghost predicate LeavesBehind(session: Bytes, start: U64, slots: nat, bytes: nat, arrivals: seq<Option<Datagram>>,
                               e: Datagram)
    requires AllParsed(arrivals) && Quiet(Seeded(session, start))
  {
    var w := Run(Seed(session, start), slots, bytes, arrivals).window;
    Overtaken(w, e.header.first) && w.pending[e.header.first] == e
  }

  /** Some arrival order of datagrams of the set leaves e buffered and passed. */
  ghost predicate CanStay(session: Bytes, start: U64, slots: nat, bytes: nat, ds: set<Datagram>, e: Datagram)
    requires Quiet(Seeded(session, start))
  {
    exists arrivals :: AllDrawn(ds, session, arrivals) && LeavesBehind(session, start, slots, bytes, arrivals, e)
  }

  // ---- The run that leaves a skippable datagram behind ----

  lemma CleanAdvance(h: History, start: int, slots: nat, bytes: nat, d: Datagram)
    requires Faithful(h, start) && Fits(d, h.window.session, bytes) && Holds(d, h.window.next)
    requires h.window.pending == map[]
    ensures Quiet(h.window) && Parsed(d)
    ensures var w := Extended(h, slots, bytes, Some(d)).window; w.next == End(d) && w.pending == map[]
  {
    hide Target, Spell, InOrderFrom, SizeOf;
    JudgeBySpan(h.window.next, d.header);
    AdvanceSettles(h.window, d);
  }

  /** The stream can be brought to any reachable number with nothing buffered. */
  lemma {:induction false} Walk(session: Bytes, start: U64, slots: nat, bytes: nat, ds: set<Datagram>, n: int)
    returns (all: seq<Option<Datagram>>)
    requires |ds| <= slots && Reached(ds, start, n) && forall d :: d in ds ==> Fits(d, session, bytes)
    ensures Ran(session, start, slots, bytes, ds, all)
    ensures var w := After(session, start, slots, bytes, ds, all).window; w.next == n && w.pending == map[]
    decreases n - start
  {
    hide Ran, Extended, Progress, Fits, Faithful;
    if n == start {
      RanNothing(session, start, slots, bytes, ds);
      all := [];
    } else {
      var m, d :| start <= m < n && d in ds && Holds(d, m) && End(d) == n && Reached(ds, start, m);
      var before := Walk(session, start, slots, bytes, ds, m);
      RanOn(session, start, slots, bytes, ds, before, d);
      var h := After(session, start, slots, bytes, ds, before);
      ProgressFaithful(h, start, ds, session, before);
      CleanAdvance(h, start, slots, bytes, d);
      all := before + [Some(d)];
    }
  }

  lemma AheadStores(h: History, start: int, slots: nat, bytes: nat, ds: set<Datagram>, d: Datagram)
    requires Faithful(h, start) && h.accepted <= ds && d in ds && |ds| <= slots
    requires Fits(d, h.window.session, bytes) && d.header.first > h.window.next
    ensures Quiet(h.window) && Parsed(d)
    ensures var w, w', f := h.window, Extended(h, slots, bytes, Some(d)).window, d.header.first;
            w'.next == w.next && w'.pending == if f in w.pending then w.pending else w.pending[f := d]
  {
    hide Target, Ask, SizeOf, Spell, InOrderFrom, Sound, NothingReady, Marks, Asked;
    JudgeBySpan(h.window.next, d.header);
    AheadKeeps(h.window, slots, bytes, d);
    if d.header.first !in h.window.pending {
      NeverFull(h, start, ds, d);
    }
  }

  /** Of the datagrams that start after e, the longest of each first number. */
  ghost predicate Late(ds: set<Datagram>, e: Datagram, x: Datagram)
  {
    && x in ds && x.header.first > e.header.first
    && forall y :: y in ds && y.header.first == x.header.first ==> End(y) <= End(x)
  }

  lemma {:induction false} LongestExists(ds: set<Datagram>, d: Datagram) returns (e: Datagram)
    requires d in ds
    ensures e in ds && e.header.first == d.header.first && End(d) <= End(e)
    ensures forall x :: x in ds && x.header.first == d.header.first ==> End(x) <= End(e)
    decreases |ds|
  {
    if x :| x in ds && x.header.first == d.header.first && End(x) > End(d) {
      e := LongestExists(ds - {d}, x);
      assert forall y :: y in ds && y != d ==> y in ds - {d};
    } else {
      e := d;
    }
  }

  lemma HeldByLate(ds: set<Datagram>, e: Datagram, n: int)
    requires HeldLater(ds, e, n)
    ensures exists x :: Late(ds, e, x) && Holds(x, n)
  {
    var x :| x in ds && x.header.first > e.header.first && Holds(x, n);
    var y := LongestExists(ds, x);
    assert Late(ds, e, y) && Holds(y, n);
  }

  /** The stream waits at m with e buffered, and late datagrams only at their full length. */
  ghost predicate Buried(w: Window, m: int, ds: set<Datagram>, e: Datagram)
  {
    && w.next == m && e.header.first in w.pending && w.pending[e.header.first] == e
    && forall x :: Late(ds, e, x) && x.header.first in w.pending ==> End(w.pending[x.header.first]) == End(x)
  }

  lemma BuryStep(w: Window, w': Window, m: int, ds: set<Datagram>, e: Datagram, d: Datagram)
    requires Buried(w, m, ds, e) && Late(ds, e, d) && w'.next == w.next
    requires w'.pending == if d.header.first in w.pending then w.pending else w.pending[d.header.first := d]
    ensures Buried(w', m, ds, e) && d.header.first in w'.pending && w.pending.Keys <= w'.pending.Keys
  {
    forall x | Late(ds, e, x) && x.header.first in w'.pending
      ensures End(w'.pending[x.header.first]) == End(x)
    {
      if x.header.first !in w.pending {
        assert x.header.first == d.header.first;
        assert End(x) <= End(d) && End(d) <= End(x);
      }
    }
  }

  lemma {:induction false} BuryRun(session: Bytes, start: U64, slots: nat, bytes: nat, ds: set<Datagram>,
                                   before: seq<Option<Datagram>>, m: int, e: Datagram, q: seq<Datagram>)
    requires Ran(session, start, slots, bytes, ds, before) && m < e.header.first
    requires Buried(After(session, start, slots, bytes, ds, before).window, m, ds, e)
    requires forall d :: d in q ==> Late(ds, e, d)
    ensures var all := before + Arrivals(q);
            && Ran(session, start, slots, bytes, ds, all)
            && var w := After(session, start, slots, bytes, ds, all).window;
               Buried(w, m, ds, e) && forall d :: d in q ==> d.header.first in w.pending
    decreases |q|
  {
    hide Ran, Extended, Progress, Faithful;
    if q == [] {
      assert before + Arrivals(q) == before;
    } else {
      var n := |q| - 1;
      BuryRun(session, start, slots, bytes, ds, before, m, e, q[..n]);
      var some := before + Arrivals(q[..n]);
      assert Late(ds, e, q[n]);
      RanOn(session, start, slots, bytes, ds, some, q[n]);
      RanFits(session, start, slots, bytes, ds, some, q[n]);
      var h := After(session, start, slots, bytes, ds, some);
      ProgressFaithful(h, start, ds, session, some);
      AheadStores(h, start, slots, bytes, ds, q[n]);
      assert before + Arrivals(q) == some + [Some(q[n])];
      BuryStep(h.window, Extended(h, slots, bytes, Some(q[n])).window, m, ds, e, q[n]);
    }
  }

  /** While late datagrams hold every number of e that is left, draining takes them and leaves e. */
  lemma {:induction false} DrainSkips(w: Window, ds: set<Datagram>, e: Datagram)
    requires Sound(w) && e.header.first in w.pending && w.pending[e.header.first] == e
    requires forall n :: w.next <= n < End(e) ==> HeldLater(ds, e, n)
    requires forall x :: Late(ds, e, x) && End(x) > w.next ==>
               x.header.first in w.pending && End(w.pending[x.header.first]) == End(x)
    ensures var r := Drain(w).0;
            e.header.first in r.pending && r.pending[e.header.first] == e && End(e) <= r.next
    decreases |w.pending|
  {
    if End(e) <= w.next {
      OvertakenStays(w, e.header.first);
      DrainFrame(w);
    } else {
      HeldByLate(ds, e, w.next);
      var x :| Late(ds, e, x) && Holds(x, w.next);
      assert Stored(w, x.header.first);
      var f := Pick(w).value;
      assert f >= x.header.first;
      Smaller(w.pending, f);
      TakeSound(w, f);
      DrainSkips(Take(w, f), ds, e);
    }
  }

  lemma LastMove(h: History, start: int, slots: nat, bytes: nat, ds: set<Datagram>, m: int, e: Datagram, c: Datagram)
    requires Faithful(h, start) && Fits(c, h.window.session, bytes) && Holds(c, m) && Buried(h.window, m, ds, e)
    requires Filled(ds, e, End(c), End(e)) && forall x :: Late(ds, e, x) ==> x.header.first in h.window.pending
    ensures Quiet(h.window) && Parsed(c)
    ensures var w := Extended(h, slots, bytes, Some(c)).window;
            Overtaken(w, e.header.first) && w.pending[e.header.first] == e
  {
    hide Target, Spell, InOrderFrom, SizeOf, Advance, Drain, NothingReady, Marks, Asked, Late, HeldLater;
    JudgeBySpan(m, c.header);
    AdvanceSettles(h.window, c);
    DrainSkips(h.window.(next := End(c), outstanding := false), ds, e);
  }

  lemma SkipRun(session: Bytes, start: U64, slots: nat, bytes: nat, ds: set<Datagram>, e: Datagram)
    returns (all: seq<Option<Datagram>>)
    requires |ds| <= slots && e in ds && Skippable(ds, start, e) && forall d :: d in ds ==> Fits(d, session, bytes)
    ensures Ran(session, start, slots, bytes, ds, all)
    ensures var w := After(session, start, slots, bytes, ds, all).window;
            Overtaken(w, e.header.first) && w.pending[e.header.first] == e
  {
    hide Ran, Extended, Progress, Faithful, Fits, Reached, Filled, After;
    var m, c :| Passes(ds, start, e, m, c) && Filled(ds, e, End(c), End(e));
    var one := Walk(session, start, slots, bytes, ds, m);
    var h1 := Extend1(session, start, slots, bytes, ds, one, e);
    AheadStores(h1, start, slots, bytes, ds, e);
    var two := one + [Some(e)];
    var late := Enumerate(set x | x in ds && Late(ds, e, x));
    BuryRun(session, start, slots, bytes, ds, two, m, e, late);
    var three := two + Arrivals(late);
    var h3 := Extend1(session, start, slots, bytes, ds, three, c);
    assert forall x :: Late(ds, e, x) ==> x in late;
    LastMove(h3, start, slots, bytes, ds, m, e, c);
    all := three + [Some(c)];
  }

  /** One more arrival of the set. */
  lemma Extend1(session: Bytes, start: U64, slots: nat, bytes: nat, ds: set<Datagram>, before: seq<Option<Datagram>>,
                d: Datagram)
    returns (h: History)
    requires Ran(session, start, slots, bytes, ds, before) && d in ds
    ensures h == After(session, start, slots, bytes, ds, before) && Faithful(h, start) && h.accepted <= ds
    ensures h.window.session == session && Quiet(h.window) && Parsed(d)
    ensures Ran(session, start, slots, bytes, ds, before + [Some(d)])
    ensures After(session, start, slots, bytes, ds, before + [Some(d)]) == Extended(h, slots, bytes, Some(d))
  {
    hide Ran, Extended, After, Progress;
    RanOn(session, start, slots, bytes, ds, before, d);
    h := After(session, start, slots, bytes, ds, before);
    ProgressFaithful(h, start, ds, session, before);
  }

  /**
   The exact condition. For datagrams that fit and are no more than the slots, some arrival order leaves
   e buffered and passed if and only if e is skippable.
   */
  lemma CanStayIff(session: Bytes, start: U64, slots: nat, bytes: nat, ds: set<Datagram>, e: Datagram)
    requires |ds| <= slots && e in ds && forall d :: d in ds ==> Fits(d, session, bytes)
    ensures Quiet(Seeded(session, start))
    ensures CanStay(session, start, slots, bytes, ds, e) <==> Skippable(ds, start, e)
  {
    hide Skippable, Fits;
    SeedFaithful(session, start);
    FaithfulQuiet(Seed(session, start), start);
    if CanStay(session, start, slots, bytes, ds, e) {
      var arrivals :| AllDrawn(ds, session, arrivals) && LeavesBehind(session, start, slots, bytes, arrivals, e);
      RunAccounted(session, start, slots, bytes, ds, arrivals);
    }
    if Skippable(ds, start, e) {
      var all := SkipRun(session, start, slots, bytes, ds, e);
      assert LeavesBehind(session, start, slots, bytes, all, e);
    }
  }

  // ---- Sets that never leave anything behind ----

  /** No number is held by two datagrams of the set. */
  ghost predicate Disjoint(ds: set<Datagram>)
  {
    forall d, e, n {:trigger Holds(d, n), Holds(e, n)} :: d in ds && e in ds && Holds(d, n) && Holds(e, n) ==> d == e
  }

  lemma NoneAtTheFirst(ds: set<Datagram>, e: Datagram)
    ensures !HeldLater(ds, e, e.header.first)
  {
  }

  lemma DisjointNotSkippable(ds: set<Datagram>, start: int, e: Datagram)
    requires Disjoint(ds) && e in ds && e.header.first < End(e)
    ensures !Skippable(ds, start, e)
  {
    if Skippable(ds, start, e) {
      var m, c :| Passes(ds, start, e, m, c) && Filled(ds, e, End(c), End(e));
      NoneAtTheFirst(ds, e);
      assert Holds(c, e.header.first) && Holds(e, e.header.first);
    }
  }

  /** Datagrams that do not overlap are never passed while buffered: between calls all of them lie ahead. */
  lemma DisjointLiesAhead(session: Bytes, start: U64, slots: nat, bytes: nat, ds: set<Datagram>,
                          arrivals: seq<Option<Datagram>>)
    requires Disjoint(ds) && AllDrawn(ds, session, arrivals)
    ensures AllParsed(arrivals) && Quiet(Seeded(session, start))
    ensures var w := Run(Seed(session, start), slots, bytes, arrivals).window; forall f :: f in w.pending ==> f > w.next
  {
    hide Skippable, Reached, Marks, Asked;
    RunAccounted(session, start, slots, bytes, ds, arrivals);
    var w := Run(Seed(session, start), slots, bytes, arrivals).window;
    forall f | f in w.pending
      ensures f > w.next
    {
      NotBetween(w, f);
      assert Stored(w, f);
      DisjointNotSkippable(ds, start, w.pending[f]);
    }
  }
}
