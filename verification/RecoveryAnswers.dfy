/** What each call of the recovery window answers, in plain numbers: status, callbacks, marks and requests. */
module RecoveryAnswers {
  import opened Machine
  import opened MoldUdp64
  import opened Recovery
  import opened RecoveryLaws

  // ---- Requests ----

  ghost predicate Requests(log: seq<Output>)
  {
    exists i :: 0 <= i < |log| && log[i].Request?
  }

  /** `to` is the nearest known number ahead (mark, buffered first number or announced end), at most 65534 on. */
  ghost predicate NearestKnown(w: Window, to: int)
  {
    && w.next < to <= w.next + 65534
    && (w.highWater != 0 ==> to <= w.highWater)
    && (forall f :: f in w.pending && f > w.next ==> to <= f)
    && (w.pendingEnd.Some? ==> to <= w.pendingEnd.value)
    && (to == w.next + 65534 || to == w.highWater || to in w.pending || w.pendingEnd == Some(to))
  }

  /** The request asks for everything from the next number up to the nearest known one. */
  ghost predicate AsksRight(w: Window, r: Output)
  {
    r.Request? && r.session == w.session && r.first == w.next && NearestKnown(w, r.first + r.count)
  }

  /**
   A call makes a request exactly when it leaves one outstanding that was not so before or that a
   processed packet has renewed; it comes last, and asks up to the nearest known number.
   */
  ghost predicate RequestMade(w: Window, s: Step)
  {
    && (Requests(s.log) <==> s.window.outstanding && (s.status.Processed? || !w.outstanding))
    && (forall i :: 0 <= i < |s.log| && s.log[i].Request? ==> i == |s.log| - 1 && AsksRight(s.window, s.log[i]))
  }

  lemma AskTells(w: Window)
    requires w.next >= 0
    ensures var a := Ask(w);
            && a.0 == w.(outstanding := a.0.outstanding) && |a.1| <= 1
            && (a.1 != [] <==> a.0.outstanding && !w.outstanding)
            && (w.outstanding ==> a.0.outstanding)
            && (a.1 != [] ==> AsksRight(a.0, a.1[0]))
  {
    var target, a := Target(w), Ask(w);
    if a.1 != [] {
      assert Known(a.0) == Known(w);
      assert target in Known(w);
      if w.highWater != 0 {
        assert w.highWater in Known(w);
      }
      if w.pendingEnd.Some? {
        assert w.pendingEnd.value in Known(w);
      }
      forall f | f in w.pending && f > w.next
        ensures target <= f
      {
        assert f in Known(w);
      }
    }
  }

  lemma AheadAsks(w: Window, slots: nat, bytes: nat, d: Datagram)
    requires w.next >= 0
    ensures RequestMade(w, Ahead(w, slots, bytes, d))
  {
    hide Ask, AsksRight, SizeOf;
    var noted := w.(highWater := if w.highWater < d.header.first then d.header.first else w.highWater);
    var (held, status) :=
      if Kind(d.header).Data? then Store(noted, slots, bytes, d)
      else if Kind(d.header).EndOfSession? then (noted.(pendingEnd := Some(d.header.first)), BufferedGap)
      else (noted, BufferedGap);
    AskTells(held);
    OneCallback(Ask(held).1);
  }

  lemma OneCallback(log: seq<Output>)
    requires |log| <= 1
    ensures Requests(log) <==> log != [] && log[0].Request?
  {
  }

  lemma AdvanceAsks(w: Window, d: Datagram)
    requires Quiet(w) && WellSized(d) && Holds(d, w.next) && End(d) <= U64_MAX
    ensures RequestMade(w, Advance(w, d))
  {
    hide Ask, AsksRight, Drain, Quiet;
    QuietIsSound(w);
    var w0 := w.(next := End(d), outstanding := false);
    Restamped(w, End(d), false);
    DrainFrame(w0);
    var drained, first := Drain(w0), Tail(d, w.next);
    SettleAsks(drained.0);
    var settled := Settle(drained.0);
    var before := first + drained.1;
    assert forall i :: 0 <= i < |before| ==> before[i].Message?;
    var log := before + settled.1;
    assert Advance(w, d).log == log;
    forall i | 0 <= i < |log| && log[i].Request?
      ensures i == |log| - 1 && AsksRight(settled.0, log[i]) && Requests(settled.1)
    {
      assert log[i] == settled.1[i - |before|];
    }
    if k :| 0 <= k < |settled.1| && settled.1[k].Request? {
      assert log[|before| + k].Request?;
    }
  }

  lemma QuietIsSound(w: Window)
    requires Quiet(w)
    ensures Sound(w) && 0 <= w.next
  {
  }

  lemma SettleAsks(w: Window)
    requires w.next >= 0 && !w.outstanding
    ensures var s := Settle(w);
            && (Requests(s.1) <==> s.0.outstanding)
            && forall i :: 0 <= i < |s.1| && s.1[i].Request? ==> i == |s.1| - 1 && AsksRight(s.0, s.1[i])
  {
    hide Ask, AsksRight;
    var due := w.pendingEnd == Some(w.next);
    var w1 := if due then w.(pendingEnd := None) else w;
    var w2 := if w1.next >= w1.highWater then w1.(highWater := 0) else w1;
    AskTells(w2);
    var s := Settle(w);
    if Ask(w2).1 != [] {
      assert s.1[|s.1| - 1].Request?;
    }
  }

  /** One call. */
  lemma IngestAsks(w: Window, slots: nat, bytes: nat, arrival: Option<Datagram>)
    requires Quiet(w) && (arrival.Some? ==> Parsed(arrival.value))
    ensures RequestMade(w, Ingest(w, slots, bytes, arrival))
  {
    hide Ahead, Advance, AsksRight;
    OneCallback([]);
    if arrival.Some? {
      var d := arrival.value;
      var w1 := Primed(w, d.header);
      OneCallback([Control(Kind(d.header), d.header.first)]);
      if w1.session == d.header.session {
        JudgeBySpan(w1.next, d.header);
        if Judge(w1.next, d.header).state.Gap? {
          AheadAsks(w1, slots, bytes, d);
        } else if MayProcess(Judge(w1.next, d.header)) && Kind(d.header).Data? {
          PrimedQuiet(w, d.header);
          AdvanceAsks(w1, d);
        }
      }
    }
  }

  lemma PrimedQuiet(w: Window, h: Header)
    requires Quiet(w)
    ensures Quiet(Primed(w, h))
  {
  }

  // ---- Requests over runs ----

  /** The callbacks of a run, in order. */
  ghost function Callbacks(h: History, slots: nat, bytes: nat, arrivals: seq<Option<Datagram>>): seq<Output>
    requires Quiet(h.window) && AllParsed(arrivals)
    decreases |arrivals|
  {
    if arrivals == [] then []
    else
      var before, last := arrivals[..|arrivals| - 1], arrivals[|arrivals| - 1];
      IngestRuns(h, slots, bytes, before);
      Callbacks(h, slots, bytes, before) + Ingest(Run(h, slots, bytes, before).window, slots, bytes, last).log
  }

  /** The latest request of a log is for the window's session and starts at its next number. */
  ghost predicate Standing(w: Window, log: seq<Output>)
  {
    exists i :: 0 <= i < |log| && LatestRequest(w, log, i)
  }

  ghost predicate LatestRequest(w: Window, log: seq<Output>, i: nat)
    requires i < |log|
  {
    && log[i].Request? && log[i].session == w.session && log[i].first == w.next
    && forall j :: i < j < |log| ==> !log[j].Request?
  }

  lemma StandingOn(w: Window, w': Window, log: seq<Output>, more: seq<Output>)
    requires Standing(w, log) && w'.session == w.session && w'.next == w.next && !Requests(more)
    ensures Standing(w', log + more)
  {
    var i :| 0 <= i < |log| && LatestRequest(w, log, i);
    assert forall j :: |log| <= j < |log + more| ==> (log + more)[j] == more[j - |log|];
    assert LatestRequest(w', log + more, i);
  }

  lemma StandingNew(w: Window, log: seq<Output>, more: seq<Output>)
    requires Requests(more)
    requires forall i :: 0 <= i < |more| && more[i].Request? ==> i == |more| - 1 && AsksRight(w, more[i])
    ensures Standing(w, log + more)
  {
    var i :| 0 <= i < |more| && more[i].Request?;
    assert (log + more)[|log| + i] == more[i];
    assert LatestRequest(w, log + more, |log| + i);
  }

  lemma OnlyProcessedMoves(w: Window, slots: nat, bytes: nat, arrival: Option<Datagram>)
    requires Quiet(w) && w.initialized && (arrival.Some? ==> Parsed(arrival.value))
    ensures var s := Ingest(w, slots, bytes, arrival);
            && s.window.session == w.session && (!s.status.Processed? ==> s.window.next == w.next)
  {
    hide Sound, NothingReady, Marks, Asked, Target, SizeOf, Drain, Settle, Tail;
    IngestKeeps(w, slots, bytes, arrival);
    if arrival.Some? {
      JudgeBySpan(w.next, arrival.value.header);
    }
  }

  /**
   Over every run: each call makes its requests as it must, and whenever one is outstanding the latest
   one made starts at the number the window still waits for.
   */
  lemma {:induction false} RunAsks(h: History, slots: nat, bytes: nat, arrivals: seq<Option<Datagram>>)
    requires Quiet(h.window) && h.window.initialized && !h.window.outstanding && AllParsed(arrivals)
    ensures var w := Run(h, slots, bytes, arrivals).window;
            && Quiet(w) && w.initialized
            && (w.outstanding ==> Standing(w, Callbacks(h, slots, bytes, arrivals)))
    ensures forall next: Option<Datagram> :: (next.Some? ==> Parsed(next.value)) ==>
              var w := Run(h, slots, bytes, arrivals).window;
              RequestMade(w, Ingest(w, slots, bytes, next))
    decreases |arrivals|
  {
    hide Ingest, Sound, NothingReady, Marks, Asked, Standing, AsksRight, Requests, Parsed;
    if arrivals != [] {
      var before, last := arrivals[..|arrivals| - 1], arrivals[|arrivals| - 1];
      RunAsks(h, slots, bytes, before);
      var w, log := Run(h, slots, bytes, before).window, Callbacks(h, slots, bytes, before);
      IngestKeeps(w, slots, bytes, last);
      IngestAsks(w, slots, bytes, last);
      OnlyProcessedMoves(w, slots, bytes, last);
      var s := Ingest(w, slots, bytes, last);
      if Requests(s.log) {
        StandingNew(s.window, log, s.log);
      } else if s.window.outstanding {
        StandingOn(w, s.window, log, s.log);
      }
    }
    var w := Run(h, slots, bytes, arrivals).window;
    forall next: Option<Datagram> | next.Some? ==> Parsed(next.value)
      ensures RequestMade(w, Ingest(w, slots, bytes, next))
    {
      IngestAsks(w, slots, bytes, next);
    }
  }

  // ---- Statuses and callbacks ----

  /** A packet that carries messages. */
  predicate IsData(h: Header) {
    h.count != 0 && h.count != 0xFFFF
  }

  /** A packet that is not ahead of the stream. */
  lemma CurrentAnswers(w: Window, slots: nat, bytes: nat, d: Datagram)
    requires Quiet(w) && w.initialized && Parsed(d)
    ensures var s, h := Ingest(w, slots, bytes, Some(d)), d.header;
            && (h.session != w.session ==> s == Step(w, WrongSession, []))
            && (h.session == w.session ==>
                  && (IsData(h) && h.first + h.count > U64_MAX ==> s == Step(w, NumberOverflow, []))
                  && (IsData(h) && h.first + h.count <= U64_MAX && h.first + h.count <= w.next ==>
                        s == Step(w, Duplicated, []))
                  && (!IsData(h) && h.first < w.next ==> s == Step(w, Duplicated, []))
                  && (h.count == 0 && h.first == w.next ==>
                        s == Step(w, HeartbeatSeen, [Control(Heartbeat, w.next)]))
                  && (h.count == 0xFFFF && h.first == w.next ==>
                        s == Step(w, EndSeen, [Control(EndOfSession, w.next)])))
    ensures Ingest(w, slots, bytes, None) == Step(w, Malformed, [])
  {
    hide Advance, Ahead, Sound, NothingReady, Marks, Asked;
  }

  /** A data packet that holds the next number: what it has that is new comes first, in order. */
  lemma ProcessedAnswers(w: Window, slots: nat, bytes: nat, d: Datagram)
    requires Quiet(w) && w.initialized && Parsed(d) && d.header.session == w.session && IsData(d.header)
    requires d.header.first <= w.next < d.header.first + d.header.count <= U64_MAX
    ensures var s, h, unseen := Ingest(w, slots, bytes, Some(d)), d.header, d.header.first + d.header.count - w.next;
            && s.status.Processed? && s.window.next >= h.first + h.count && |s.log| >= unseen
            && (forall i :: 0 <= i < unseen ==>
                  s.log[i] == Message(w.next + i, d.messages[w.next - h.first + i]))
            && s.window.highWater == (if s.window.next >= w.highWater then 0 else w.highWater)
            && (Control(EndOfSession, s.window.next) in s.log <==> w.pendingEnd == Some(s.window.next))
  {
    hide Target, Drain, Marks, Asked;
    JudgeBySpan(w.next, d.header);
    IngestKeeps(w, slots, bytes, Some(d));
    var w0 := w.(next := End(d), outstanding := false);
    Restamped(w, End(d), false);
    DrainFrame(w0);
    var drained := Drain(w0);
    var settled, before := Settle(drained.0), Tail(d, w.next) + drained.1;
    var log := before + settled.1;
    assert Ingest(w, slots, bytes, Some(d)) == Advance(w, d) && Advance(w, d).log == log;
    forall i | 0 <= i < End(d) - w.next
      ensures log[i] == Message(w.next + i, d.messages[w.next - d.header.first + i])
    {
      assert log[i] == Tail(d, w.next)[i];
    }
    assert forall i :: 0 <= i < |before| ==> before[i].Message?;
    if w.pendingEnd == Some(drained.0.next) {
      assert settled.1[0] == Control(EndOfSession, drained.0.next) && log[|before|] == settled.1[0];
    } else {
      forall i | 0 <= i < |log|
        ensures log[i] != Control(EndOfSession, drained.0.next)
      {
        if i >= |before| {
          assert log[i] == settled.1[i - |before|];
        }
      }
    }
  }

  /** A packet ahead of the stream raises the mark; data is held unless too large, known or without a slot. */
  lemma AheadAnswers(w: Window, slots: nat, bytes: nat, d: Datagram)
    requires Quiet(w) && w.initialized && Parsed(d) && d.header.session == w.session && w.next < d.header.first
    requires IsData(d.header) ==> d.header.first + d.header.count <= U64_MAX
    ensures var s, h := Ingest(w, slots, bytes, Some(d)), d.header;
            var large := SizeOf(d) > bytes || SizeOf(d) > 65535;
            && s.window.next == w.next
            && s.window.highWater == (if w.highWater < h.first then h.first else w.highWater)
            && s.window.pendingEnd == (if h.count == 0xFFFF then Some(h.first) else w.pendingEnd)
            && s.status == (if !IsData(h) then BufferedGap
                            else if large then DatagramTooLarge
                            else if h.first in w.pending then Duplicated
                            else if |w.pending| >= slots then ReorderWindowFull
                            else BufferedGap)
            && s.window.pending == (if IsData(h) && s.status.BufferedGap? then w.pending[h.first := d] else w.pending)
  {
    hide Target, SizeOf, Sound, NothingReady, Marks, Asked;
  }
}
