/** Safety of the recovery window over every run: order, completeness, requests, end of session. */
module RecoveryLaws {
  import opened Collections
  import opened Machine
  import opened MoldUdp64
  import opened Recovery

  // ---- What every call keeps ----

  /** An announced end that data has already passed; it is never cleared and hides what is missing. */
  predicate Stale(w: Window) {
    w.pendingEnd.Some? && w.pendingEnd.value < w.next
  }

  /** Something known lies strictly ahead: a buffered datagram or an end of session. */
  ghost predicate WaitsAhead(w: Window)
  {
    (exists f :: f in w.pending && f > w.next) || (w.pendingEnd.Some? && w.pendingEnd.value > w.next)
  }

  ghost predicate Marks(w: Window)
  {
    && (w.highWater == 0 || w.highWater > w.next)
    && (forall f :: f in w.pending && f > w.next ==> f <= w.highWater)
    && (w.pendingEnd.Some? ==>
          w.pendingEnd.value != w.next && (w.pendingEnd.value > w.next ==> w.pendingEnd.value <= w.highWater))
  }

  /** The next number is missing although a later one was announced, and no stale end hides it. */
  predicate OpenGap(w: Window) {
    w.highWater > w.next && !Stale(w)
  }

  ghost predicate Grounded(w: Window)
  {
    w.outstanding ==> OpenGap(w)
  }

  /** A request is outstanding only for a gap, and always when data or an end waits ahead. */
  ghost predicate Asked(w: Window)
  {
    && Grounded(w)
    && (WaitsAhead(w) && !Stale(w) ==> w.outstanding)
  }

  /** Holds between any two calls. */
  ghost predicate Quiet(w: Window)
  {
    Sound(w) && NothingReady(w) && Marks(w) && Asked(w) && (!w.initialized ==> w == EMPTY_WINDOW)
  }

  /** A request starts at the next number, asks for 1 to 65534 and for nothing already buffered. */
  ghost predicate GoodRequest(w: Window, r: Output)
    requires r.Request?
  {
    && r.session == w.session && r.first == w.next && 1 <= r.count <= 0xFFFE
    && forall f :: f in w.pending ==> End(w.pending[f]) <= r.first || r.first + r.count <= f
  }

  /** What the log of one call may contain, given the window it leaves. */
  ghost predicate GoodLog(w: Window, log: seq<Output>)
  {
    forall i :: 0 <= i < |log| ==>
      && (log[i].Request? ==> GoodRequest(w, log[i]) && w.outstanding && i == |log| - 1)
      && (log[i].Control? ==> log[i].sequence == w.next)
  }

  lemma TargetBounds(w: Window)
    requires NothingReady(w) && Sound(w)
    requires forall f :: f in w.pending && f > w.next ==> f <= w.highWater
    requires w.pendingEnd.Some? && w.pendingEnd.value > w.next ==> w.pendingEnd.value <= w.highWater
    ensures Target(w) > w.next <==>
              w.highWater > w.next && (w.highWater != 0) && !(w.pendingEnd.Some? && w.pendingEnd.value <= w.next)
    ensures Target(w) > w.next ==> forall f :: f in w.pending && f > w.next ==> Target(w) <= f
  {
    var target := Target(w);
    if w.highWater != 0 {
      assert w.highWater in Known(w);
    }
    if w.pendingEnd.Some? {
      assert w.pendingEnd.value in Known(w);
    }
    forall f | f in w.pending && f > w.next
      ensures target <= f
    {
      assert f in Known(w);
    }
  }

  /** Asking keeps everything and leaves a request outstanding exactly for a visible gap. */
  lemma AskKeeps(w: Window)
    requires Sound(w) && NothingReady(w) && Marks(w)
    requires Grounded(w)
    ensures var a := Ask(w);
            && a.0 == w.(outstanding := a.0.outstanding)
            && (a.0.outstanding <==> OpenGap(w)) && (OpenGap(a.0) <==> OpenGap(w))
            && Asked(a.0) && NothingReady(a.0) && Marks(a.0) && Sound(a.0) && GoodLog(a.0, a.1)
            && |a.1| <= 1 && (a.1 != [] ==> a.1[0].Request?)
  {
    TargetBounds(w);
    var a := Ask(w);
    assert Sound(a.0) by {
      assert forall f :: f in w.pending ==> Stored(w, f) && Stored(a.0, f);
    }
    if a.1 != [] {
      forall f | f in w.pending
        ensures End(w.pending[f]) <= w.next || w.next + a.1[0].count <= f
      {
        assert Stored(w, f);
      }
    }
  }

  lemma SettleKeeps(w: Window)
    requires Sound(w) && NothingReady(w) && !w.outstanding
    requires forall f :: f in w.pending && f > w.next ==> f <= w.highWater
    requires w.pendingEnd.Some? && w.pendingEnd.value > w.next ==> w.pendingEnd.value <= w.highWater
    ensures var s := Settle(w);
            && s.0.next == w.next && s.0.pending == w.pending && s.0.session == w.session
            && s.0.initialized == w.initialized
            && Sound(s.0) && NothingReady(s.0) && Marks(s.0) && Asked(s.0) && GoodLog(s.0, s.1)
            && (s.0.outstanding <==> OpenGap(s.0))
            && (forall i :: 0 <= i < |s.1| ==> !s.1[i].Message?)
            && (Control(EndOfSession, w.next) in s.1 <==> w.pendingEnd == Some(w.next))
  {
    var due := w.pendingEnd == Some(w.next);
    var w1 := if due then w.(pendingEnd := None) else w;
    var w2 := if w1.next >= w1.highWater then w1.(highWater := 0) else w1;
    assert Sound(w2) by {
      assert forall f :: f in w.pending ==> Stored(w, f) && Stored(w2, f);
    }
    AskKeeps(w2);
    var asked := Ask(w2);
    if due {
      assert Settle(w).1[0] == Control(EndOfSession, w.next);
    }
  }

  // ---- Delivered messages ----

  /** The message callbacks of a log. */
  ghost function Spell(log: seq<Output>): seq<Visit> {
    if log == [] then []
    else Spell(log[..|log| - 1]) + (var o := log[|log| - 1]; if o.Message? then [Visit(o.sequence, o.message)] else [])
  }

  lemma {:induction false} SpellAdds(a: seq<Output>, b: seq<Output>)
    ensures Spell(a + b) == Spell(a) + Spell(b)
  {
    if b == [] {
      assert a + b == a;
    } else {
      assert (a + b)[..|a + b| - 1] == a + b[..|b| - 1];
      SpellAdds(a, b[..|b| - 1]);
    }
  }

  lemma {:induction false} SpellNothing(log: seq<Output>)
    requires forall i :: 0 <= i < |log| ==> !log[i].Message?
    ensures Spell(log) == []
  {
    if log != [] {
      SpellNothing(log[..|log| - 1]);
    }
  }

  lemma {:induction false} SpellMessages(log: seq<Output>)
    requires forall i :: 0 <= i < |log| ==> log[i].Message?
    ensures |Spell(log)| == |log|
    ensures forall i :: 0 <= i < |log| ==> Spell(log)[i] == Visit(log[i].sequence, log[i].message)
  {
    if log != [] {
      SpellMessages(log[..|log| - 1]);
    }
  }

  ghost predicate WellSized(d: Datagram)
  {
    Kind(d.header).Data? && |d.messages| == d.header.count
  }

  /** Some accepted datagram says that number n carries this message. */
  ghost predicate Says(accepted: set<Datagram>, n: int, message: Bytes)
  {
    exists d :: d in accepted && WellSized(d) && Holds(d, n) && Content(d, n) == message
  }

  /** Delivered so far: every number from start to next - 1, in order, once, as an accepted datagram says. */
  ghost predicate InOrderFrom(accepted: set<Datagram>, start: int, next: int, delivered: seq<Visit>)
  {
    && |delivered| == next - start
    && forall i {:trigger delivered[i]} :: 0 <= i < |delivered| ==>
         delivered[i].sequence == start + i && Says(accepted, start + i, delivered[i].message)
  }

  /** No accepted datagram is forgotten: it is passed or still buffered. */
  ghost predicate Kept(w: Window, accepted: set<Datagram>)
  {
    && (forall d :: d in accepted ==>
          WellSized(d) && (End(d) <= w.next || (d.header.first in w.pending && w.pending[d.header.first] == d)))
    && (forall f :: f in w.pending ==> w.pending[f] in accepted)
  }

  lemma Extend(accepted: set<Datagram>, start: int, next: int, delivered: seq<Visit>, d: Datagram)
    requires InOrderFrom(accepted, start, next, delivered) && d in accepted && WellSized(d) && Holds(d, next)
    ensures InOrderFrom(accepted, start, End(d), delivered + Spell(Tail(d, next)))
  {
    var log := Tail(d, next);
    SpellMessages(log);
    forall i | |delivered| <= i < |delivered + Spell(log)|
      ensures var v := (delivered + Spell(log))[i]; v.sequence == start + i && Says(accepted, start + i, v.message)
    {
      assert log[i - |delivered|] == Message(start + i, Content(d, start + i));
    }
  }

  lemma TakeKept(w: Window, f: int, accepted: set<Datagram>)
    requires Sound(w) && IsPick(w, f) && Kept(w, accepted)
    ensures Kept(Take(w, f), accepted) && w.pending[f] in accepted && WellSized(w.pending[f])
    ensures Holds(w.pending[f], w.next)
  {
    assert Stored(w, f);
  }

  /**
   Draining delivers on in order and stops only when no buffered datagram holds the next number;
   it forgets nothing and touches no mark.
   */
  lemma {:induction false} DrainDelivers(w: Window, accepted: set<Datagram>, start: int, delivered: seq<Visit>)
    requires Sound(w) && Kept(w, accepted) && InOrderFrom(accepted, start, w.next, delivered)
    ensures var r := Drain(w);
            && Sound(r.0) && Kept(r.0, accepted) && NothingReady(r.0) && w.next <= r.0.next
            && InOrderFrom(accepted, start, r.0.next, delivered + Spell(r.1))
    decreases |w.pending|
  {
    hide Kept, InOrderFrom, Sound, Spell, Tail;
    if Pick(w).Some? {
      var f := Pick(w).value;
      Smaller(w.pending, f);
      TakeSound(w, f);
      TakeKept(w, f, accepted);
      var d, w' := w.pending[f], Take(w, f);
      var log := Tail(d, w.next);
      Extend(accepted, start, w.next, delivered, d);
      DrainDelivers(w', accepted, start, delivered + Spell(log));
      SpellAdds(log, Drain(w').1);
      assert delivered + Spell(log) + Spell(Drain(w').1) == delivered + Spell(Drain(w).1);
    } else {
      SpellNothing([]);
      assert delivered + [] == delivered;
    }
  }

  /** Draining only takes datagrams out and moves on; it logs messages and nothing else. */
  lemma {:induction false} DrainFrame(w: Window)
    requires Sound(w)
    ensures var r := Drain(w);
            && r.0.session == w.session && r.0.initialized == w.initialized && r.0.highWater == w.highWater
            && r.0.pendingEnd == w.pendingEnd && (!w.outstanding ==> !r.0.outstanding)
            && w.next <= r.0.next && r.0.pending.Keys <= w.pending.Keys
            && (forall i :: 0 <= i < |r.1| ==> r.1[i].Message?)
    decreases |w.pending|
  {
    if Pick(w).Some? {
      var f := Pick(w).value;
      Smaller(w.pending, f);
      TakeSound(w, f);
      assert Stored(w, f);
      DrainFrame(Take(w, f));
      assert forall i :: 0 <= i < |Tail(w.pending[f], w.next)| ==> Tail(w.pending[f], w.next)[i].Message?;
    }
  }

  // ---- One call ----

  /** The packet is one the window took in: delivered or buffered. */
  predicate Taken(s: Step) {
    s.status.Processed? || s.status.BufferedGap?
  }

  lemma StoreKeeps(w: Window, d: Datagram)
    requires Sound(w) && NothingReady(w) && Marks(w) && Grounded(w)
    requires WellSized(d) && d.header.session == w.session && End(d) <= U64_MAX
    requires w.next < d.header.first <= w.highWater
    ensures var w' := w.(pending := w.pending[d.header.first := d]);
            Sound(w') && NothingReady(w') && Marks(w') && Grounded(w')
  {
    var w' := w.(pending := w.pending[d.header.first := d]);
    assert forall f :: f in w'.pending ==> (f in w.pending ==> Stored(w, f)) && Stored(w', f);
  }

  lemma NoteKeeps(w: Window, high: int, end: Option<int>)
    requires Quiet(w) && high > w.next && high >= w.highWater
    requires end == w.pendingEnd || (end.Some? && w.next < end.value <= high)
    ensures var w' := w.(highWater := high, pendingEnd := end);
            Sound(w') && NothingReady(w') && Marks(w') && Grounded(w') && (end == w.pendingEnd ==> Asked(w'))
  {
    var w' := w.(highWater := high, pendingEnd := end);
    assert forall f :: f in w'.pending ==> Stored(w, f) && Stored(w', f);
  }

  lemma AheadKeeps(w: Window, slots: nat, bytes: nat, d: Datagram)
    requires Quiet(w) && w.initialized && Parsed(d) && d.header.session == w.session && d.header.first > w.next
    requires Kind(d.header).Data? ==> End(d) <= U64_MAX
    ensures var s := Ahead(w, slots, bytes, d);
            && Quiet(s.window) && GoodLog(s.window, s.log) && Spell(s.log) == []
            && s.window.next == w.next && s.window.session == w.session && s.window.initialized
            && (Taken(s) ==> (s.window.outstanding <==> OpenGap(s.window)))
            && (Taken(s) && Kind(d.header).Data? ==> d.header.first !in w.pending)
            && s.window.pending == if Taken(s) && Kind(d.header).Data? then w.pending[d.header.first := d]
                                   else w.pending
  {
    hide Sound, Target, Spell, Marks, Asked, NothingReady, Grounded, OpenGap, Ask, SizeOf;
    var high := if w.highWater < d.header.first then d.header.first else w.highWater;
    NoteKeeps(w, high, w.pendingEnd);
    var noted := w.(highWater := high);
    assert noted == w.(highWater := high, pendingEnd := w.pendingEnd);
    SpellNothing([]);
    if Kind(d.header).Data? {
      var (held, status) := Store(noted, slots, bytes, d);
      if status == BufferedGap {
        StoreKeeps(noted, d);
        AskKeeps(held);
        SpellNothing(Ask(held).1);
      }
    } else if Kind(d.header).EndOfSession? {
      NoteKeeps(w, high, Some(d.header.first));
      var held := w.(highWater := high, pendingEnd := Some(d.header.first));
      AskKeeps(held);
      SpellNothing(Ask(held).1);
    } else {
      AskKeeps(noted);
      SpellNothing(Ask(noted).1);
    }
  }

  lemma LogsJoin(w: Window, a: seq<Output>, b: seq<Output>)
    requires GoodLog(w, b) && forall i :: 0 <= i < |a| ==> a[i].Message?
    ensures GoodLog(w, a + b)
  {
  }

  lemma Restamped(w: Window, next: int, outstanding: bool)
    requires Sound(w) && 0 <= next <= U64_MAX
    ensures Sound(w.(next := next, outstanding := outstanding))
  {
    var w' := w.(next := next, outstanding := outstanding);
    assert forall f :: f in w.pending ==> Stored(w, f) && Stored(w', f);
  }

  lemma AdvanceKeeps(w: Window, d: Datagram)
    requires Quiet(w) && w.initialized && WellSized(d) && Holds(d, w.next) && End(d) <= U64_MAX
    ensures var s := Advance(w, d);
            && Quiet(s.window) && GoodLog(s.window, s.log) && s.window.session == w.session && s.window.initialized
            && w.next < s.window.next && (s.window.outstanding <==> OpenGap(s.window))
  {
    hide Spell, Target;
    var w0 := w.(next := End(d), outstanding := false);
    Restamped(w, End(d), false);
    DrainFrame(w0);
    DrainEnds(w0);
    var drained := Drain(w0);
    SettleKeeps(drained.0);
    var settled := Settle(drained.0);
    LogsJoin(settled.0, Tail(d, w.next) + drained.1, settled.1);
  }

  lemma {:induction false} DrainEnds(w: Window)
    requires Sound(w)
    ensures Sound(Drain(w).0) && NothingReady(Drain(w).0)
    decreases |w.pending|
  {
    if Pick(w).Some? {
      var f := Pick(w).value;
      Smaller(w.pending, f);
      TakeSound(w, f);
      DrainEnds(Take(w, f));
    }
  }

  /** A window that only knows its session and its first number. */
  function Seeded(session: Bytes, first: int): Window {
    Window(true, session, first, map[], 0, None, false)
  }

  /** The first well-formed packet, of any kind, is treated as if the window had been seeded with it. */
  lemma FirstPacketSeeds(slots: nat, bytes: nat, d: Datagram)
    requires Parsed(d)
    ensures var seeded := Seeded(d.header.session, d.header.first);
            Ingest(EMPTY_WINDOW, slots, bytes, Some(d)) == Ingest(seeded, slots, bytes, Some(d))
  {
  }

  /**
   Between calls: nothing deliverable is held back, and a request is outstanding whenever data or an
   end waits ahead unless data has passed an announced end. Requests and control callbacks of the
   call are well placed, and after an accepted packet one is outstanding exactly for an open gap.
   */
  lemma IngestKeeps(w: Window, slots: nat, bytes: nat, arrival: Option<Datagram>)
    requires Quiet(w) && (arrival.Some? ==> Parsed(arrival.value))
    ensures var s := Ingest(w, slots, bytes, arrival);
            && Quiet(s.window) && GoodLog(s.window, s.log)
            && (w.initialized ==> s.window.initialized && s.window.session == w.session && w.next <= s.window.next)
            && (Taken(s) ==> (s.window.outstanding <==> OpenGap(s.window)))
  {
    hide Target;
    if arrival.Some? {
      var d := arrival.value;
      var w1 := Primed(w, d.header);
      if w1.session == d.header.session {
        JudgeBySpan(w1.next, d.header);
        match Judge(w1.next, d.header).state {
          case Overflow =>
          case Duplicate =>
          case Gap => AheadKeeps(w1, slots, bytes, d);
          case _ =>
            if Kind(d.header).Data? {
              AdvanceKeeps(w1, d);
            }
        }
      }
    }
  }

  // ---- Runs ----

  datatype History = History(window: Window, accepted: set<Datagram>, delivered: seq<Visit>)

  ghost predicate Faithful(h: History, start: int)
  {
    && Quiet(h.window) && h.window.initialized
    && Kept(h.window, h.accepted) && InOrderFrom(h.accepted, start, h.window.next, h.delivered)
  }

  ghost function Extended(h: History, slots: nat, bytes: nat, arrival: Option<Datagram>): History
    requires Quiet(h.window) && (arrival.Some? ==> Parsed(arrival.value))
  {
    var s := Ingest(h.window, slots, bytes, arrival);
    History(s.window,
            if Taken(s) && Kind(arrival.value.header).Data? then h.accepted + {arrival.value} else h.accepted,
            h.delivered + Spell(s.log))
  }

  lemma MoreAccepted(a: set<Datagram>, b: set<Datagram>, start: int, next: int, delivered: seq<Visit>)
    requires InOrderFrom(a, start, next, delivered) && a <= b
    ensures InOrderFrom(b, start, next, delivered)
  {
    forall i | 0 <= i < |delivered|
      ensures Says(b, start + i, delivered[i].message)
    {
      assert Says(a, start + i, delivered[i].message);
    }
  }

  lemma AdvanceExplains(h: History, start: int, d: Datagram)
    requires Faithful(h, start) && WellSized(d) && Holds(d, h.window.next) && End(d) <= U64_MAX
    ensures var s := Advance(h.window, d);
            s.status.Processed? && Kept(s.window, h.accepted + {d})
            && InOrderFrom(h.accepted + {d}, start, s.window.next, h.delivered + Spell(s.log))
  {
    hide InOrderFrom, Spell, Sound;
    var w, accepted := h.window, h.accepted + {d};
    var w0 := w.(next := End(d), outstanding := false);
    Restamped(w, End(d), false);
    assert Kept(w0, accepted);
    var first := Tail(d, w.next);
    MoreAccepted(h.accepted, accepted, start, w.next, h.delivered);
    Extend(accepted, start, w.next, h.delivered, d);
    DrainDelivers(w0, accepted, start, h.delivered + Spell(first));
    DrainFrame(w0);
    var drained := Drain(w0);
    SettleKeeps(drained.0);
    var settled := Settle(drained.0);
    SpellAdds(first, drained.1);
    SpellAdds(first + drained.1, settled.1);
    SpellNothing(settled.1);
    assert h.delivered + Spell(first) + Spell(drained.1) == h.delivered + Spell(first + drained.1 + settled.1);
  }

  lemma AheadExplains(h: History, start: int, slots: nat, bytes: nat, d: Datagram)
    requires Faithful(h, start) && Parsed(d) && d.header.session == h.window.session && d.header.first > h.window.next
    requires Kind(d.header).Data? ==> End(d) <= U64_MAX
    ensures var s := Ahead(h.window, slots, bytes, d);
            var accepted := if Taken(s) && Kind(d.header).Data? then h.accepted + {d} else h.accepted;
            Kept(s.window, accepted) && InOrderFrom(accepted, start, s.window.next, h.delivered + Spell(s.log))
  {
    hide InOrderFrom, Ahead, Quiet, Spell;
    AheadKeeps(h.window, slots, bytes, d);
    assert h.delivered + [] == h.delivered;
    MoreAccepted(h.accepted, h.accepted + {d}, start, h.window.next, h.delivered);
  }

  lemma IngestExplains(h: History, start: int, slots: nat, bytes: nat, arrival: Option<Datagram>)
    requires Faithful(h, start) && (arrival.Some? ==> Parsed(arrival.value))
    ensures Faithful(Extended(h, slots, bytes, arrival), start)
  {
    hide InOrderFrom, Quiet, Kept, Ahead, Advance, Spell, GoodLog, OpenGap;
    var w := h.window;
    IngestKeeps(w, slots, bytes, arrival);
    SpellNothing([]);
    assert h.delivered + [] == h.delivered;
    if arrival.Some? && w.session == arrival.value.header.session {
      var d := arrival.value;
      JudgeBySpan(w.next, d.header);
      var verdict := Judge(w.next, d.header);
      if verdict.state.Gap? {
        AheadExplains(h, start, slots, bytes, d);
      } else if MayProcess(verdict) && Kind(d.header).Data? {
        AdvanceExplains(h, start, d);
      } else if verdict.state.InOrder? {
        SpellNothing([Control(Kind(d.header), d.header.first)]);
      }
    }
  }

  ghost predicate AllParsed(arrivals: seq<Option<Datagram>>)
  {
    forall i :: 0 <= i < |arrivals| && arrivals[i].Some? ==> Parsed(arrivals[i].value)
  }

  ghost function Run(h: History, slots: nat, bytes: nat, arrivals: seq<Option<Datagram>>): History
    requires Quiet(h.window) && AllParsed(arrivals)
    decreases |arrivals|, 0
  {
    if arrivals == [] then h else
      var before := Run(h, slots, bytes, arrivals[..|arrivals| - 1]);
      IngestRuns(h, slots, bytes, arrivals[..|arrivals| - 1]);
      Extended(before, slots, bytes, arrivals[|arrivals| - 1])
  }

  lemma {:induction false} IngestRuns(h: History, slots: nat, bytes: nat, arrivals: seq<Option<Datagram>>)
    requires Quiet(h.window) && AllParsed(arrivals)
    ensures Quiet(Run(h, slots, bytes, arrivals).window)
    decreases |arrivals|, 1
  {
    if arrivals != [] {
      IngestRuns(h, slots, bytes, arrivals[..|arrivals| - 1]);
      IngestKeeps(Run(h, slots, bytes, arrivals[..|arrivals| - 1]).window, slots, bytes, arrivals[|arrivals| - 1]);
    }
  }

  /** Every run from a seeded window delivers its numbers in order, once each, as accepted datagrams say. */
  lemma {:induction false} RunFaithful(h: History, start: int, slots: nat, bytes: nat, arrivals: seq<Option<Datagram>>)
    requires Faithful(h, start) && AllParsed(arrivals)
    ensures Faithful(Run(h, slots, bytes, arrivals), start)
    decreases |arrivals|
  {
    if arrivals != [] {
      RunFaithful(h, start, slots, bytes, arrivals[..|arrivals| - 1]);
      IngestExplains(Run(h, slots, bytes, arrivals[..|arrivals| - 1]), start, slots, bytes, arrivals[|arrivals| - 1]);
    }
  }

  ghost predicate Covered(accepted: set<Datagram>, n: int)
  {
    exists d :: d in accepted && Holds(d, n)
  }

  /** The next number is the least one, from the start on, that no accepted datagram holds. */
  ghost predicate LeastUncovered(accepted: set<Datagram>, start: int, next: int)
  {
    start <= next && !Covered(accepted, next) && forall n :: start <= n < next ==> Covered(accepted, n)
  }

  lemma NextIsLeastUncovered(h: History, start: int)
    requires Faithful(h, start)
    ensures LeastUncovered(h.accepted, start, h.window.next)
  {
    forall n | start <= n < h.window.next
      ensures Covered(h.accepted, n)
    {
      var v := h.delivered[n - start];
      assert Says(h.accepted, n, v.message);
    }
  }

  // ---- When an open gap has no request outstanding ----

  /** A datagram ahead that is not held because it is too large or no slot is free. */
  predicate TurnedAway(s: Step) {
    s.status.DatagramTooLarge? || s.status.ReorderWindowFull?
  }

  /** A call that takes nothing can only raise the high-water mark. */
  lemma NotTakenKeeps(w: Window, slots: nat, bytes: nat, arrival: Option<Datagram>)
    requires Quiet(w) && w.initialized && (arrival.Some? ==> Parsed(arrival.value))
    ensures var s := Ingest(w, slots, bytes, arrival);
            !Taken(s) ==>
              s.window == w.(highWater := s.window.highWater) && w.highWater <= s.window.highWater
  {
    hide Sound, NothingReady, Marks, Asked, Target, SizeOf, Drain, Settle, Ask;
    if arrival.Some? {
      JudgeBySpan(w.next, arrival.value.header);
    }
  }

  /**
   While a request is outstanding exactly for an open gap, one call breaks this if and only if it turns a
   datagram away while nothing is outstanding and no end is stale.
   */
  lemma RequestLostIff(w: Window, slots: nat, bytes: nat, arrival: Option<Datagram>)
    requires Quiet(w) && w.initialized && (w.outstanding <==> OpenGap(w)) && (arrival.Some? ==> Parsed(arrival.value))
    ensures var s := Ingest(w, slots, bytes, arrival);
            (s.window.outstanding <==> OpenGap(s.window)) <==> !(TurnedAway(s) && !w.outstanding && !Stale(w))
  {
    hide Sound, NothingReady, Target, SizeOf, Drain, Settle, Ask;
    IngestKeeps(w, slots, bytes, arrival);
    if arrival.Some? {
      JudgeBySpan(w.next, arrival.value.header);
    }
  }

  /** A datagram was turned away while nothing was outstanding, and no packet has been taken since. */
  ghost predicate Unasked(h: History, slots: nat, bytes: nat, arrivals: seq<Option<Datagram>>)
    requires Quiet(h.window) && AllParsed(arrivals)
    decreases |arrivals|
  {
    arrivals != [] &&
    var before, last := arrivals[..|arrivals| - 1], arrivals[|arrivals| - 1];
    IngestRuns(h, slots, bytes, before);
    var w := Run(h, slots, bytes, before).window;
    var s := Ingest(w, slots, bytes, last);
    !Taken(s) && (Unasked(h, slots, bytes, before) || (TurnedAway(s) && !w.outstanding && !Stale(w)))
  }

  /** Over every run: a request is outstanding exactly for an open gap, if and only if none was left unasked. */
  lemma {:induction false} RunOutstandingIff(h: History, slots: nat, bytes: nat, arrivals: seq<Option<Datagram>>)
    requires Quiet(h.window) && h.window.initialized
    requires (h.window.outstanding <==> OpenGap(h.window)) && AllParsed(arrivals)
    ensures var w := Run(h, slots, bytes, arrivals).window;
            && Quiet(w) && w.initialized
            && ((w.outstanding <==> OpenGap(w)) <==> !Unasked(h, slots, bytes, arrivals))
    decreases |arrivals|
  {
    hide Ingest, Sound, NothingReady, Marks;
    if arrivals != [] {
      var before, last := arrivals[..|arrivals| - 1], arrivals[|arrivals| - 1];
      RunOutstandingIff(h, slots, bytes, before);
      var w := Run(h, slots, bytes, before).window;
      IngestKeeps(w, slots, bytes, last);
      NotTakenKeeps(w, slots, bytes, last);
      if !Unasked(h, slots, bytes, before) {
        RequestLostIff(w, slots, bytes, last);
      }
    }
  }

  // ---- Slots that stay ----

  /** A buffered datagram that has been overtaken keeps its slot: draining takes out only what it delivers. */
  lemma {:induction false} OvertakenStays(w: Window, f: int)
    requires Sound(w) && f in w.pending && End(w.pending[f]) <= w.next
    ensures f in Drain(w).0.pending && Drain(w).0.pending[f] == w.pending[f]
    decreases |w.pending|
  {
    if Pick(w).Some? {
      var g := Pick(w).value;
      Smaller(w.pending, g);
      TakeSound(w, g);
      OvertakenStays(Take(w, g), f);
    }
  }

  /** A second datagram under a buffered first number is refused, whatever it holds. */
  lemma SameFirstRefused(w: Window, slots: nat, bytes: nat, d: Datagram)
    requires Quiet(w) && w.initialized && WellSized(d) && d.header.session == w.session && End(d) <= U64_MAX
    requires w.next < d.header.first && d.header.first in w.pending
    ensures var s := Ingest(w, slots, bytes, Some(d));
            (s.status.Duplicated? || s.status.DatagramTooLarge?) && s.window.pending == w.pending && s.log == []
  {
    hide Sound, NothingReady, Marks, Asked, SizeOf;
    JudgeBySpan(w.next, d.header);
  }

  // ---- The stale end of session ----

  /** Behind a stale end nothing buffered is ever asked for. */
  lemma StaleHidesGap(w: Window, slots: nat, bytes: nat, d: Datagram)
    requires Quiet(w) && w.initialized && Stale(w) && WellSized(d) && d.header.session == w.session
    requires w.next < d.header.first && End(d) <= U64_MAX
    ensures var s := Ingest(w, slots, bytes, Some(d));
            Taken(s) ==> WaitsAhead(s.window) && !s.window.outstanding && s.log == []
  {
    hide Sound, NothingReady, Marks, Asked, GoodLog, Target, SizeOf, Spell;
    AheadKeeps(w, slots, bytes, d);
    var s := Ahead(w, slots, bytes, d);
    if Taken(s) {
      assert d.header.first in s.window.pending;
      assert !OpenGap(s.window);
    }
  }

  /** An end of session of this session ahead of the stream. */
  predicate AnnouncesEnd(w: Window, arrival: Option<Datagram>) {
    arrival.Some? && arrival.value.header.session == w.session && Kind(arrival.value.header).EndOfSession?
    && arrival.value.header.first > w.next
  }

  lemma AdvanceKeepsEnd(w: Window, d: Datagram)
    requires Quiet(w) && w.initialized && Stale(w) && WellSized(d) && Holds(d, w.next) && End(d) <= U64_MAX
    ensures Advance(w, d).window.pendingEnd == w.pendingEnd
  {
    hide Target, Spell, Drain;
    var w0 := w.(next := End(d), outstanding := false);
    Restamped(w, End(d), false);
    DrainFrame(w0);
  }

  /** Until another end is announced ahead, a stale end stays and nothing at all is asked for. */
  lemma StalePersists(w: Window, slots: nat, bytes: nat, arrival: Option<Datagram>)
    requires Quiet(w) && w.initialized && Stale(w) && !AnnouncesEnd(w, arrival)
    requires (arrival.Some? ==> Parsed(arrival.value))
    ensures var s := Ingest(w, slots, bytes, arrival);
            && Quiet(s.window) && s.window.initialized && Stale(s.window) && !s.window.outstanding
            && forall i :: 0 <= i < |s.log| ==> !s.log[i].Request?
  {
    hide Sound, NothingReady, Marks, Target, Drain, Settle, SizeOf, Ask, Tail;
    IngestKeeps(w, slots, bytes, arrival);
    if arrival.Some? && w.session == arrival.value.header.session {
      var d := arrival.value;
      JudgeBySpan(w.next, d.header);
      if MayProcess(Judge(w.next, d.header)) && Kind(d.header).Data? {
        AdvanceKeepsEnd(w, d);
      } else if Judge(w.next, d.header).state.Gap? {
        AskKeepsEnd(w, slots, bytes, d);
      }
    }
  }

  /** Over a whole run in which no end is announced ahead, a stale end never goes away and nothing is outstanding. */
  lemma {:induction false} StaleForever(h: History, slots: nat, bytes: nat, arrivals: seq<Option<Datagram>>)
    requires Quiet(h.window) && h.window.initialized && Stale(h.window) && AllParsed(arrivals)
    requires forall i :: 0 <= i < |arrivals| ==>
               (Prefixed(arrivals, i); !AnnouncesEnd(Run(h, slots, bytes, arrivals[..i]).window, arrivals[i]))
    ensures var w := Run(h, slots, bytes, arrivals).window; Quiet(w) && w.initialized && Stale(w) && !w.outstanding
    decreases |arrivals|
  {
    hide Ingest, Quiet, Stale;
    var n := |arrivals| - 1;
    if arrivals == [] {
      StaleIdle(h.window);
    } else {
      forall i | 0 <= i < n
        ensures AllParsed(arrivals[..n][..i])
        ensures !AnnouncesEnd(Run(h, slots, bytes, arrivals[..n][..i]).window, arrivals[..n][i])
      {
        assert arrivals[..n][..i] == arrivals[..i];
      }
      StaleForever(h, slots, bytes, arrivals[..n]);
      StalePersists(Run(h, slots, bytes, arrivals[..n]).window, slots, bytes, arrivals[n]);
    }
  }

  lemma Prefixed(arrivals: seq<Option<Datagram>>, i: nat)
    requires AllParsed(arrivals) && i <= |arrivals|
    ensures AllParsed(arrivals[..i])
  {
  }

  lemma StaleIdle(w: Window)
    requires Quiet(w) && Stale(w)
    ensures !w.outstanding
  {
  }

  lemma AskKeepsEnd(w: Window, slots: nat, bytes: nat, d: Datagram)
    requires !Kind(d.header).EndOfSession?
    ensures Ahead(w, slots, bytes, d).window.pendingEnd == w.pendingEnd
    ensures Ahead(w, slots, bytes, d).window.next == w.next
  {
    hide Target, SizeOf;
  }

  /** A datagram ahead that is too large or finds no slot raises the high-water mark and does nothing else. */
  lemma RefusedRaisesMark(w: Window, slots: nat, bytes: nat, d: Datagram)
    requires Quiet(w) && w.initialized && WellSized(d) && d.header.session == w.session && End(d) <= U64_MAX
    requires w.next < d.header.first
    requires SizeOf(d) > bytes || SizeOf(d) > U16_MAX || (d.header.first !in w.pending && |w.pending| >= slots)
    ensures var s := Ingest(w, slots, bytes, Some(d));
            && s.status == (if SizeOf(d) > bytes || SizeOf(d) > U16_MAX then DatagramTooLarge else ReorderWindowFull)
            && s.window == w.(highWater := if w.highWater < d.header.first then d.header.first else w.highWater)
            && s.window.highWater > s.window.next && s.log == []
  {
    hide Sound, NothingReady, Marks, Asked, SizeOf, Target;
    JudgeBySpan(w.next, d.header);
  }

  /**
   A stale end is reachable: an end announced at 3 while 1 is missing, then data for 1 to 5. From
   there a datagram at 10 is buffered and nothing is requested.
   */
  lemma StaleEndExample(session: Bytes, m: Bytes)
    ensures var end := Datagram(Header(session, 3, END_OF_SESSION), []);
            var data := Datagram(Header(session, 1, 5), [m, m, m, m, m]);
            var w1 := Ahead(Seeded(session, 1), 1, 2048, end).window;
            && Quiet(Seeded(session, 1)) && Quiet(w1) && Holds(data, w1.next)
            && var w2 := Advance(w1, data).window;
               Quiet(w2) && Stale(w2) && w2.next == 6
  {
    hide Target, Spell;
    var end, data := Datagram(Header(session, 3, END_OF_SESSION), []), Datagram(Header(session, 1, 5), [m, m, m, m, m]);
    AheadKeeps(Seeded(session, 1), 1, 2048, end);
    var w1 := Ahead(Seeded(session, 1), 1, 2048, end).window;
    AdvanceKeeps(w1, data);
    var w0 := w1.(next := 6, outstanding := false);
    Restamped(w1, 6, false);
    assert Pick(w0) == None;
  }
}
