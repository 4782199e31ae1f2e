/** What the feed can say of its pipeline, on values: one call's log, what was delivered, and how it ended. */
module FeedStories {
  import opened Collections
  import opened Machine
  import opened MoldUdp64
  import opened Recovery
  import opened RecoveryConfluence
  import opened RecoveryEnds
  import opened RecoveryLaws
  import opened RecoveryOrder
  import opened RecoverySlots
  import opened RecoveryWindows
  import opened Replicas
  import Pipelines

  /** A log that delivers exactly the numbers from `from` to `to - 1`, in order, before anything else. */
  ghost predicate Runs(log: seq<Output>, from: int, to: int)
  {
    && from <= to && to - from <= |log|
    && (forall i :: 0 <= i < to - from ==> log[i].Message? && log[i].sequence == from + i)
    && (forall i :: to - from <= i < |log| ==> !log[i].Message?)
  }

  lemma RunsJoin(a: seq<Output>, b: seq<Output>, from: int, mid: int, to: int)
    requires Runs(a, from, mid) && |a| == mid - from && Runs(b, mid, to)
    ensures Runs(a + b, from, to)
  {
    forall i | 0 <= i < to - from
      ensures (a + b)[i].Message? && (a + b)[i].sequence == from + i
    {
      if i >= |a| {
        assert (a + b)[i] == b[i - |a|];
      }
    }
  }

  lemma TailRuns(d: Datagram, from: int)
    requires Holds(d, from) && |d.messages| == End(d) - d.header.first
    ensures Runs(Tail(d, from), from, End(d))
  {
  }

  lemma {:induction false} DrainRuns(w: Window)
    requires Sound(w)
    ensures Runs(Drain(w).1, w.next, Drain(w).0.next) && |Drain(w).1| == Drain(w).0.next - w.next
    decreases |w.pending|
  {
    if Pick(w).Some? {
      var f := Pick(w).value;
      Smaller(w.pending, f);
      TakeSound(w, f);
      assert Stored(w, f);
      TailRuns(w.pending[f], w.next);
      DrainRuns(Take(w, f));
      RunsJoin(Tail(w.pending[f], w.next), Drain(Take(w, f)).1, w.next, End(w.pending[f]), Drain(w).0.next);
    }
  }

  /** One call delivers exactly the numbers the window moves past. */
  lemma IngestRunsOn(w: Window, slots: nat, bytes: nat, arrival: Option<Datagram>)
    requires Quiet(w) && w.initialized && (arrival.Some? ==> Parsed(arrival.value))
    ensures var s := Ingest(w, slots, bytes, arrival);
            Runs(s.log, w.next, s.window.next) && 0 <= w.next && s.window.next <= U64_MAX
            && (s.status.EndSeen? ==> |s.log| == 1 && IsEnd(s.log[0]))
  {
    hide Drain, Settle, Target, Tail, Ahead;
    IngestKeeps(w, slots, bytes, arrival);
    QuietSound(w);
    QuietSound(Ingest(w, slots, bytes, arrival).window);
    if arrival.Some? && w.session == arrival.value.header.session {
      var d := arrival.value;
      JudgeBySpan(w.next, d.header);
      var verdict := Judge(w.next, d.header);
      if verdict.state.Gap? {
        AheadSilent(w, slots, bytes, d);
      } else if MayProcess(verdict) && Kind(d.header).Data? {
        AdvanceRuns(w, d);
      }
    }
  }

  lemma AheadSilent(w: Window, slots: nat, bytes: nat, d: Datagram)
    ensures var s := Ahead(w, slots, bytes, d);
            s.window.next == w.next && Runs(s.log, w.next, w.next) && !s.status.EndSeen?
  {
    hide Target, SizeOf;
  }

  lemma AdvanceRuns(w: Window, d: Datagram)
    requires Quiet(w) && w.initialized && WellSized(d) && Holds(d, w.next) && End(d) <= U64_MAX
    ensures var s := Advance(w, d); Runs(s.log, w.next, s.window.next)
  {
    hide Drain, Settle, Tail, Quiet;
    QuietSound(w);
    SoundNext(w);
    var w0 := w.(next := End(d), outstanding := false);
    Restamped(w, End(d), false);
    var first, drained := Tail(d, w.next), Drain(w0);
    TailRuns(d, w.next);
    DrainRuns(w0);
    SettleSilent(drained.0);
    RunsJoin(first, drained.1, w.next, End(d), drained.0.next);
    RunsJoin(first + drained.1, Settle(drained.0).1, w.next, drained.0.next, drained.0.next);
  }

  lemma SettleSilent(w: Window)
    ensures Settle(w).0.next == w.next && Runs(Settle(w).1, w.next, w.next)
  {
    hide Target;
  }

  /** The last number a header ahead of the stream says must exist. */
  function Announces(h: Header): int {
    if Kind(h).Data? then h.first + h.count - 1 else h.first - 1
  }

  /** The messages of a run of deliveries, without their numbers. */
  ghost function Texts(visits: seq<Visit>): (texts: seq<Bytes>)
    ensures |texts| == |visits|
  {
    seq(|visits|, i requires 0 <= i < |visits| => visits[i].message)
  }

  lemma TextsJoin(a: seq<Visit>, b: seq<Visit>)
    ensures Texts(a + b) == Texts(a) + Texts(b)
  {
  }

  /** The requests of a log, in order. */
  ghost function Requests(log: seq<Output>): seq<Output> {
    if log == [] then []
    else Requests(log[..|log| - 1]) + (if log[|log| - 1].Request? then [log[|log| - 1]] else [])
  }

  /** The log holds messages for a pipeline that was never started. */
  ghost predicate Unstarted(log: seq<Output>, started: bool)
  {
    !started && Spell(log) != []
  }

  /** A refused stream stays refused whatever follows. */
  lemma {:induction false} RefusedStays(s: Pipelines.Setting, messages: seq<Bytes>, more: seq<Bytes>)
    requires Pipelines.Replay(s, messages) == None
    ensures Pipelines.Replay(s, messages + more) == None
    decreases |more|
  {
    if more == [] {
      assert messages + more == messages;
    } else {
      assert (messages + more)[..|messages + more| - 1] == messages + more[..|more| - 1];
      RefusedStays(s, messages, more[..|more| - 1]);
    }
  }

  /**
   How it stands with a feed: still open; spoiled by the transport; or closed by an end of session that
   came when nothing was wrong, after so many deliveries.
   */
  datatype Fate = Open | Spoiled | Closed(count: nat)

  /** The transport makes an open feed untrustworthy; a closed one is past that. */
  function Troubled(fate: Fate): Fate {
    if fate.Open? then Spoiled else fate
  }

  /** The fate after a log has been relayed. */
  function Relayed(fate: Fate, ended: bool, unstarted: bool, refused: bool, count: nat): Fate {
    if !fate.Open? then fate
    else if unstarted then Spoiled
    else if ended && !refused then Closed(count)
    else Open
  }

  ghost predicate Refuses(s: Pipelines.Setting, begin: seq<Bytes>, delivered: seq<Visit>)
  {
    Pipelines.Replay(s, begin + Texts(delivered)) == None
  }

  /** The pipeline has applied these messages and holds what they mean. */
  ghost predicate Holding(s: Pipelines.Setting, messages: seq<Bytes>, applied: seq<Bytes>, model: Replica)
  {
    applied == messages && Pipelines.Replay(s, messages) == Some(model)
  }

  /**
   What a pipeline holds after some deliveries. While the feed is open it is faulted exactly when the
   stream semantics refuses what was delivered, and otherwise holds what that means; once the feed is
   closed it still holds what was delivered until then.
   */
  ghost predicate Explained(s: Pipelines.Setting, begin: seq<Bytes>, delivered: seq<Visit>, fate: Fate,
                            faulted: bool, applied: seq<Bytes>, model: Replica)
  {
    match fate
    case Open =>
      && (faulted <==> Refuses(s, begin, delivered))
      && (!faulted ==> Holding(s, begin + Texts(delivered), applied, model))
    case Spoiled => faulted
    case Closed(count) =>
      faulted && count <= |delivered| && Holding(s, begin + Texts(delivered[..count]), applied, model)
  }

  /** What relaying some messages, and perhaps an end of session, does to a pipeline. */
  ghost predicate Moves(s: Pipelines.Setting, more: seq<Visit>, ended: bool, unstarted: bool,
                        faulted: bool, applied: seq<Bytes>, model: Replica,
                        faulted': bool, applied': seq<Bytes>, model': Replica)
  {
    && (faulted ==> faulted' && applied' == applied && model' == model)
    && (!faulted ==> (faulted' <==> ended || unstarted || Refuses(s, applied, more)))
    && (!faulted && !unstarted && !Refuses(s, applied, more) ==> Holding(s, applied + Texts(more), applied', model'))
  }

  lemma ExplainedStep(s: Pipelines.Setting, begin: seq<Bytes>, delivered: seq<Visit>, fate: Fate,
                      more: seq<Visit>, ended: bool, unstarted: bool,
                      faulted: bool, applied: seq<Bytes>, model: Replica,
                      faulted': bool, applied': seq<Bytes>, model': Replica)
    requires Explained(s, begin, delivered, fate, faulted, applied, model)
    requires Moves(s, more, ended, unstarted, faulted, applied, model, faulted', applied', model')
    ensures var all := delivered + more;
            Explained(s, begin, all, Relayed(fate, ended, unstarted, Refuses(s, begin, all), |all|),
                      faulted', applied', model')
  {
    hide Pipelines.Replay, Texts;
    var all := delivered + more;
    TextsJoin(delivered, more);
    assert begin + Texts(all) == begin + Texts(delivered) + Texts(more);
    if fate.Closed? {
      assert all[..fate.count] == delivered[..fate.count];
    } else if fate.Open? && faulted {
      RefusedStays(s, begin + Texts(delivered), Texts(more));
    } else if fate.Open? {
      assert all[..|all|] == all;
    }
  }

  lemma NothingMoves(s: Pipelines.Setting, faulted: bool, applied: seq<Bytes>, model: Replica)
    requires !faulted ==> Pipelines.Replay(s, applied) == Some(model)
    ensures Moves(s, [], false, false, faulted, applied, model, faulted, applied, model)
  {
    hide Pipelines.Replay;
    assert applied + Texts([]) == applied;
  }

  /** One message more, to a pipeline that may have been faulted on the way. */
  lemma MessageMoves(s: Pipelines.Setting, more: seq<Visit>, v: Visit, started: bool,
                     faulted: bool, applied: seq<Bytes>, model: Replica,
                     faulted1: bool, applied1: seq<Bytes>, model1: Replica,
                     faulted2: bool, applied2: seq<Bytes>, model2: Replica)
    requires Moves(s, more, false, !started && more != [], faulted, applied, model, faulted1, applied1, model1)
    requires faulted1 ==> faulted2 && applied2 == applied1 && model2 == model1
    requires !faulted1 ==> (faulted2 <==> !started || Pipelines.Replay(s, applied1 + [v.message]) == None)
    requires !faulted1 && !faulted2 ==> Holding(s, applied1 + [v.message], applied2, model2)
    ensures Moves(s, more + [v], false, !started, faulted, applied, model, faulted2, applied2, model2)
  {
    hide Pipelines.Replay;
    assert applied + Texts(more + [v]) == applied + Texts(more) + [v.message];
    if Refuses(s, applied, more) {
      RefusedStays(s, applied + Texts(more), [v.message]);
    }
  }

  /** An end of session faults the pipeline and changes nothing else. */
  lemma EndMoves(s: Pipelines.Setting, more: seq<Visit>, ended: bool, unstarted: bool,
                 faulted: bool, applied: seq<Bytes>, model: Replica,
                 faulted1: bool, applied1: seq<Bytes>, model1: Replica)
    requires Moves(s, more, ended, unstarted, faulted, applied, model, faulted1, applied1, model1)
    ensures Moves(s, more, true, unstarted, faulted, applied, model, true, applied1, model1)
  {
  }

  /** A closed feed was closed where an end had been announced; an open one has had no end signalled. */
  ghost predicate EndsTold(s: Pipelines.Setting, session: Bytes, start: int, begin: seq<Bytes>,
                           slots: nat, bytes: nat, arrivals: seq<Option<Datagram>>, fate: Fate)
    requires AllParsed(arrivals) && Quiet(Seeded(session, start))
  {
    && (fate.Closed? ==> Announced(arrivals, session, start + fate.count))
    && (fate.Open? && Signalled(Seed(session, start), slots, bytes, arrivals) ==>
          Refuses(s, begin, Run(Seed(session, start), slots, bytes, arrivals).delivered))
  }

  lemma EndsToldStep(s: Pipelines.Setting, session: Bytes, start: U64, begin: seq<Bytes>, slots: nat, bytes: nat,
                     before: seq<Option<Datagram>>, fate: Fate, arrival: Option<Datagram>, unstarted: bool)
    requires AllParsed(before) && Quiet(Seeded(session, start)) && (arrival.Some? ==> Parsed(arrival.value))
    requires EndsTold(s, session, start, begin, slots, bytes, before, fate)
    ensures AllParsed(before + [arrival])
    ensures var h, all := Run(Seed(session, start), slots, bytes, before), before + [arrival];
            && Quiet(h.window)
            && var log := Ingest(h.window, slots, bytes, arrival).log;
               var visits := h.delivered + Spell(log);
               var fate' := Relayed(fate, Ends(log), unstarted, Refuses(s, begin, visits), |visits|);
               EndsTold(s, session, start, begin, slots, bytes, all, fate')
  {
    hide Run, Signalled, Announced, Ends, Pipelines.Replay, Texts, Ingest, Parsed, AllParsed, Spell, Faithful;
    var h0, all := Seed(session, start), before + [arrival];
    RunNext(h0, slots, bytes, before, arrival);
    SignalledSnoc(h0, slots, bytes, before, arrival);
    SignalAnnounced(h0, slots, bytes, before, arrival);
    SeedFaithful(session, start);
    RunFaithful(h0, start, slots, bytes, all);
    DeliveredCount(Run(h0, slots, bytes, all), start);
    if fate.Closed? {
      AnnouncedSnoc(before, arrival, session, start + fate.count);
    }
    var visits := Run(h0, slots, bytes, before).delivered;
    var more := Spell(Ingest(Run(h0, slots, bytes, before).window, slots, bytes, arrival).log);
    if Refuses(s, begin, visits) {
      TextsJoin(visits, more);
      assert begin + Texts(visits + more) == begin + Texts(visits) + Texts(more);
      RefusedStays(s, begin + Texts(visits), Texts(more));
    }
  }

  lemma LogStarts(log: seq<Output>)
    ensures Requests(log[..0]) == [] && !Ends(log[..0]) && Spell(log[..0]) == []
  {
  }

  /** What one more callback adds to a log. */
  lemma LogStep(log: seq<Output>, i: nat)
    requires i < |log|
    ensures Requests(log[..i + 1]) == Requests(log[..i]) + (if log[i].Request? then [log[i]] else [])
    ensures Ends(log[..i + 1]) <==> Ends(log[..i]) || (log[i].Control? && log[i].kind.EndOfSession?)
    ensures Spell(log[..i + 1]) ==
              Spell(log[..i]) + (if log[i].Message? then [Visit(log[i].sequence, log[i].message)] else [])
  {
    hide Ends;
    EndsStep(log, i);
    assert log[..i + 1][..i] == log[..i];
  }

  lemma EndsStep(log: seq<Output>, i: nat)
    requires i < |log|
    ensures Ends(log[..i + 1]) <==> Ends(log[..i]) || (log[i].Control? && log[i].kind.EndOfSession?)
  {
    var part := log[..i + 1];
    if IsEnd(log[i]) {
      assert IsEnd(part[i]);
    }
    if k :| 0 <= k < i && IsEnd(log[..i][k]) {
      assert IsEnd(part[k]);
    }
    if k :| 0 <= k < i + 1 && IsEnd(part[k]) {
      assert k < i ==> IsEnd(log[..i][k]);
    }
  }

  lemma RunNext(h: History, slots: nat, bytes: nat, arrivals: seq<Option<Datagram>>, arrival: Option<Datagram>)
    requires Quiet(h.window) && AllParsed(arrivals) && (arrival.Some? ==> Parsed(arrival.value))
    ensures AllParsed(arrivals + [arrival])
    ensures var before, after := Run(h, slots, bytes, arrivals), Run(h, slots, bytes, arrivals + [arrival]);
            && Quiet(before.window)
            && var s := Ingest(before.window, slots, bytes, arrival);
               after.window == s.window && after.delivered == before.delivered + Spell(s.log)
  {
    hide Ingest, Quiet, Parsed;
    IngestRuns(h, slots, bytes, arrivals);
    assert (arrivals + [arrival])[..|arrivals|] == arrivals;
  }

  /** Before any datagram a pipeline holds what it began with. */
  lemma Untold(session: Bytes, start: U64, slots: nat, bytes: nat, s: Pipelines.Setting, begin: seq<Bytes>,
               faulted: bool, model: Replica)
    requires !faulted ==> Pipelines.Replay(s, begin) == Some(model)
    ensures AllParsed([]) && Quiet(Seeded(session, start))
    ensures Run(Seed(session, start), slots, bytes, []) == Seed(session, start)
    ensures var fate := if faulted then Spoiled else Open;
            && Explained(s, begin, Seed(session, start).delivered, fate, faulted, begin, model)
            && EndsTold(s, session, start, begin, slots, bytes, [], fate)
    ensures var w := Seeded(session, start); w.initialized && w.session == session && w.next == start
  {
    hide Pipelines.Replay;
    SeedFaithful(session, start);
    FaithfulQuiet(Seed(session, start), start);
    assert begin + Texts([]) == begin;
  }

  /** The transport faults that make the book untrustworthy. */
  predicate Fatal(status: Status) {
    || status.Malformed? || status.WrongSession? || status.DatagramTooLarge? || status.ReorderWindowFull?
    || status.NumberOverflow?
  }

  /** The answer of the recovery window to a well-formed datagram. */
  ghost function Answer(w: Window, slots: nat, bytes: nat, data: Bytes): Step
    requires Quiet(w) && exists messages :: Carries(data, messages)
  {
    DecodeIs(data, Decode(data).value);
    Ingest(w, slots, bytes, Decode(data))
  }

  /** A well-formed datagram of this session. */
  ghost predicate Heard(data: Bytes, session: Bytes)
  {
    |data| >= HEADER_BYTES && HeaderOf(data).session == session && exists messages :: Carries(data, messages)
  }

  lemma AnnouncedFits(data: Bytes)
    requires exists messages :: Carries(data, messages)
    ensures |data| >= HEADER_BYTES
    ensures Announces(HeaderOf(data)) <= U64_MAX
  {
  }

  lemma StepRuns(w: Window, slots: nat, bytes: nat, data: Bytes)
    requires Quiet(w) && w.initialized && (exists messages :: Carries(data, messages))
    ensures Decode(data).Some? && Parsed(Decode(data).value) && Sound(w) && |data| >= HEADER_BYTES
    ensures Decode(data).value.header == HeaderOf(data)
    ensures var s := Ingest(w, slots, bytes, Decode(data));
            Runs(s.log, w.next, s.window.next) && 0 <= w.next && s.window.next <= U64_MAX
            && s.window.initialized && s.window.session == w.session
            && (s.status.EndSeen? ==> Ends(s.log))
  {
    var d := Decode(data).value;
    DecodeIs(data, d);
    IngestRunsOn(w, slots, bytes, Some(d));
    IngestKeeps(w, slots, bytes, Some(d));
  }

  /** The seed parses as a heartbeat. */
  lemma SeedDecodes(session: Bytes, first: U64, slots: nat, bytes: nat)
    requires |session| == 10
    ensures var h := Header(session, first, 0);
            Decode(HeaderBytes(h)) == Some(Datagram(h, []))
            && Ingest(EMPTY_WINDOW, slots, bytes, Some(Datagram(h, []))).window == Seeded(session, first)
  {
    var h := Header(session, first, 0);
    var p := HeaderBytes(h);
    HeaderRoundTrip(h, []);
    assert p + [] == p;
    assert p[HEADER_BYTES..] == [];
    assert Carries(p, []);
    DecodeIs(p, Datagram(h, []));
  }

  /** A clogged window makes any well-formed data packet ahead of the stream a fault of the transport. */
  lemma CloggedFaults(w: Window, slots: nat, bytes: nat, data: Bytes, messages: seq<Bytes>)
    requires Quiet(w) && w.initialized && Clogged(w, slots) && Carries(data, messages)
    requires HeaderOf(data).session == w.session && Kind(HeaderOf(data)).Data? && HeaderOf(data).first > w.next
    requires SpanEnd(HeaderOf(data)) <= U64_MAX
    ensures Fatal(Answer(w, slots, bytes, data).status)
  {
    hide Clogged, Ingest, Quiet, Carries;
    StepRuns(w, slots, bytes, data);
    CloggedRefuses(w, slots, bytes, Decode(data).value);
  }
}
