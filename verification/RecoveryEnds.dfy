/** The end of a session: signalled only where some packet announced it, and always once it is due. */
module RecoveryEnds {
  import opened Machine
  import opened MoldUdp64
  import opened Recovery
  import opened RecoveryLaws
  import opened RecoveryOrder

  predicate IsEnd(o: Output) {
    o.Control? && o.kind.EndOfSession?
  }

  /** The log signals the end of the session. */
  ghost predicate Ends(log: seq<Output>)
  {
    exists i :: 0 <= i < |log| && IsEnd(log[i])
  }

  /** The arrival announces the end of the session before number n. */
  predicate EndAt(arrival: Option<Datagram>, session: Bytes, n: int) {
    && arrival.Some? && arrival.value.header.session == session
    && Kind(arrival.value.header).EndOfSession? && arrival.value.header.first == n
  }

  ghost predicate Announced(arrivals: seq<Option<Datagram>>, session: Bytes, n: int)
  {
    exists i :: 0 <= i < |arrivals| && EndAt(arrivals[i], session, n)
  }

  lemma NoEnd(log: seq<Output>)
    requires forall i :: 0 <= i < |log| ==> !log[i].Control?
    ensures !Ends(log)
  {
  }

  lemma AheadEnds(w: Window, slots: nat, bytes: nat, d: Datagram)
    requires Quiet(w) && w.initialized && Parsed(d) && d.header.session == w.session && d.header.first > w.next
    requires Kind(d.header).Data? ==> End(d) <= U64_MAX
    ensures var s := Ahead(w, slots, bytes, d);
            && !Ends(s.log)
            && s.window.pendingEnd == if Kind(d.header).EndOfSession? then Some(d.header.first) else w.pendingEnd
  {
    hide Target, SizeOf, Quiet, Ends;
    NoEnd(Ahead(w, slots, bytes, d).log);
  }

  lemma AdvanceEnds(w: Window, d: Datagram)
    requires Quiet(w) && w.initialized && WellSized(d) && Holds(d, w.next) && End(d) <= U64_MAX
    ensures var s := Advance(w, d);
            && (Ends(s.log) <==> w.pendingEnd == Some(s.window.next))
            && s.window.pendingEnd == if Ends(s.log) then None else w.pendingEnd
  {
    hide Target, Tail, Drain;
    var w0 := w.(next := End(d), outstanding := false);
    Restamped(w, End(d), false);
    DrainFrame(w0);
    var drained := Drain(w0);
    var settled := Settle(drained.0);
    var first := Tail(d, w.next);
    TailMessages(d, w.next);
    var log := first + drained.1 + settled.1;
    assert Advance(w, d).log == log;
    if drained.0.pendingEnd == Some(drained.0.next) {
      assert IsEnd(settled.1[0]);
      assert log[|first + drained.1|] == settled.1[0];
    } else {
      NoEnd(log);
    }
  }

  lemma TailMessages(d: Datagram, from: int)
    requires Holds(d, from) && |d.messages| == End(d) - d.header.first
    ensures forall i :: 0 <= i < |Tail(d, from)| ==> Tail(d, from)[i].Message?
  {
  }

  /**
   What one call does to a remembered end: a signalled end was announced before or by this arrival, an
   end is remembered only when announced, and one that is remembered or announced is kept until signalled.
   */
  ghost predicate EndStep(end: Option<int>, session: Bytes, next: int, arrival: Option<Datagram>,
                    end': Option<int>, next': int, signalled: bool)
  {
    && (signalled ==> end == Some(next') || EndAt(arrival, session, next'))
    && (end' == end || (end' == None && signalled) || (end'.Some? && EndAt(arrival, session, end'.value)))
    && (forall n :: EndAt(arrival, session, n) && n >= next ==> signalled || end' == Some(n))
  }

  /** One call: what a signalled or remembered end goes back to, and that an announced end is never lost. */
  lemma CallEnds(w: Window, slots: nat, bytes: nat, arrival: Option<Datagram>)
    requires Quiet(w) && w.initialized && (arrival.Some? ==> Parsed(arrival.value))
    ensures var s := Ingest(w, slots, bytes, arrival);
            EndStep(w.pendingEnd, w.session, w.next, arrival, s.window.pendingEnd, s.window.next, Ends(s.log))
  {
    hide Quiet, Ahead, Advance, Ends;
    NoEnd([]);
    if arrival.Some? && w.session == arrival.value.header.session {
      var d := arrival.value;
      JudgeBySpan(w.next, d.header);
      if Judge(w.next, d.header).state.Gap? {
        AheadEnds(w, slots, bytes, d);
      } else if MayProcess(Judge(w.next, d.header)) && Kind(d.header).Data? {
        AdvanceEnds(w, d);
      } else {
        OneControl(Kind(d.header), d.header.first);
      }
    }
  }

  lemma OneControl(kind: PacketKind, sequence: int)
    ensures Ends([Control(kind, sequence)]) <==> kind.EndOfSession?
  {
    assert [Control(kind, sequence)][0] == Control(kind, sequence);
  }

  // ---- Runs ----

  /** Some call of the run has signalled the end of the session. */
  ghost predicate Signalled(h: History, slots: nat, bytes: nat, arrivals: seq<Option<Datagram>>)
    requires Quiet(h.window) && AllParsed(arrivals)
    decreases |arrivals|
  {
    arrivals != [] &&
    var before := arrivals[..|arrivals| - 1];
    IngestRuns(h, slots, bytes, before);
    || Signalled(h, slots, bytes, before)
    || Ends(Ingest(Run(h, slots, bytes, before).window, slots, bytes, arrivals[|arrivals| - 1]).log)
  }

  lemma SignalledSnoc(h: History, slots: nat, bytes: nat, before: seq<Option<Datagram>>, arrival: Option<Datagram>)
    requires Quiet(h.window) && AllParsed(before) && (arrival.Some? ==> Parsed(arrival.value))
    ensures AllParsed(before + [arrival]) && Quiet(Run(h, slots, bytes, before).window)
    ensures Signalled(h, slots, bytes, before + [arrival]) <==>
              || Signalled(h, slots, bytes, before)
              || Ends(Ingest(Run(h, slots, bytes, before).window, slots, bytes, arrival).log)
  {
    hide Ingest, Ends, Quiet, Parsed;
    IngestRuns(h, slots, bytes, before);
    assert (before + [arrival])[..|before|] == before;
  }

  lemma AnnouncedSnoc(before: seq<Option<Datagram>>, arrival: Option<Datagram>, session: Bytes, n: int)
    ensures Announced(before + [arrival], session, n) <==> Announced(before, session, n) || EndAt(arrival, session, n)
  {
    hide EndAt;
    var all := before + [arrival];
    if EndAt(arrival, session, n) {
      assert EndAt(all[|before|], session, n);
    }
    if i :| 0 <= i < |before| && EndAt(before[i], session, n) {
      assert EndAt(all[i], session, n);
    }
    if i :| 0 <= i < |all| && EndAt(all[i], session, n) {
      assert i < |before| ==> EndAt(before[i], session, n);
    }
  }

  /** A remembered end goes back to an arrival. */
  lemma {:induction false} RunRemembers(h: History, slots: nat, bytes: nat, arrivals: seq<Option<Datagram>>)
    requires Quiet(h.window) && h.window.initialized && h.window.pendingEnd == None && AllParsed(arrivals)
    ensures var w := Run(h, slots, bytes, arrivals).window;
            && Quiet(w) && w.initialized && w.session == h.window.session && h.window.next <= w.next
            && (w.pendingEnd.Some? ==> Announced(arrivals, w.session, w.pendingEnd.value))
    decreases |arrivals|
  {
    hide Ingest, Quiet, Announced, Parsed;
    if arrivals != [] {
      var before, last := arrivals[..|arrivals| - 1], arrivals[|arrivals| - 1];
      RunRemembers(h, slots, bytes, before);
      var w := Run(h, slots, bytes, before).window;
      IngestKeeps(w, slots, bytes, last);
      CallEnds(w, slots, bytes, last);
      RunSnoc(h, slots, bytes, before, last);
      assert before + [last] == arrivals;
      var w' := Run(h, slots, bytes, arrivals).window;
      if w'.pendingEnd.Some? {
        AnnouncedSnoc(before, last, w.session, w'.pendingEnd.value);
      }
    }
  }

  /** A call that signals the end does so at a number that some arrival announced. */
  lemma SignalAnnounced(h: History, slots: nat, bytes: nat, before: seq<Option<Datagram>>, arrival: Option<Datagram>)
    requires Quiet(h.window) && h.window.initialized && h.window.pendingEnd == None && AllParsed(before)
    requires arrival.Some? ==> Parsed(arrival.value)
    ensures Quiet(Run(h, slots, bytes, before).window)
    ensures var s := Ingest(Run(h, slots, bytes, before).window, slots, bytes, arrival);
            Ends(s.log) ==> Announced(before + [arrival], h.window.session, s.window.next)
  {
    hide Ingest, Announced, Ends, Run;
    RunRemembers(h, slots, bytes, before);
    var w := Run(h, slots, bytes, before).window;
    CallEnds(w, slots, bytes, arrival);
    AnnouncedSnoc(before, arrival, w.session, Ingest(w, slots, bytes, arrival).window.next);
  }

  /** Every end that is announced is announced before number `last`. */
  ghost predicate OneEnd(arrivals: seq<Option<Datagram>>, session: Bytes, last: int)
  {
    forall n :: Announced(arrivals, session, n) ==> n == last
  }

  /** When the stream stays within the announced end, that end is signalled or still remembered. */
  lemma {:induction false} RunSignals(h: History, slots: nat, bytes: nat, arrivals: seq<Option<Datagram>>, last: int)
    requires Quiet(h.window) && h.window.initialized && h.window.pendingEnd == None && AllParsed(arrivals)
    requires OneEnd(arrivals, h.window.session, last) && Run(h, slots, bytes, arrivals).window.next <= last
    ensures Announced(arrivals, h.window.session, last) ==>
              || Signalled(h, slots, bytes, arrivals)
              || Run(h, slots, bytes, arrivals).window.pendingEnd == Some(last)
    decreases |arrivals|
  {
    hide Ingest, Quiet, Announced, Ends, Parsed;
    if arrivals == [] {
      NothingAnnounced(h.window.session, last);
    } else {
      var before, arrival := arrivals[..|arrivals| - 1], arrivals[|arrivals| - 1];
      RunRemembers(h, slots, bytes, before);
      var w := Run(h, slots, bytes, before).window;
      IngestKeeps(w, slots, bytes, arrival);
      RunSnoc(h, slots, bytes, before, arrival);
      SignalledSnoc(h, slots, bytes, before, arrival);
      assert before + [arrival] == arrivals;
      forall n | Announced(before, w.session, n)
        ensures n == last
      {
        AnnouncedSnoc(before, arrival, w.session, n);
      }
      RunSignals(h, slots, bytes, before, last);
      CallEnds(w, slots, bytes, arrival);
      AnnouncedSnoc(before, arrival, w.session, last);
      forall n | EndAt(arrival, w.session, n)
        ensures n == last
      {
        AnnouncedSnoc(before, arrival, w.session, n);
      }
    }
  }

  lemma NothingAnnounced(session: Bytes, n: int)
    ensures !Announced([], session, n)
  {
  }

  /** Once the stream has reached the announced end, it has been signalled. */
  lemma ReachedEndSignalled(h: History, slots: nat, bytes: nat, arrivals: seq<Option<Datagram>>, last: int)
    requires Quiet(h.window) && h.window.initialized && h.window.pendingEnd == None && AllParsed(arrivals)
    requires OneEnd(arrivals, h.window.session, last) && Announced(arrivals, h.window.session, last)
    requires Run(h, slots, bytes, arrivals).window.next == last
    ensures Signalled(h, slots, bytes, arrivals)
  {
    hide Run, Signalled, Announced, OneEnd;
    RunRemembers(h, slots, bytes, arrivals);
    RunSignals(h, slots, bytes, arrivals, last);
  }
}
