/** The feed: recovery window and pipeline driven together by one datagram at a time. */
module MoldFeeds {
  import opened Machine
  import opened FeedStories
  import opened MoldUdp64
  import opened Recovery
  import opened RecoveryConfluence
  import opened RecoveryEnds
  import opened RecoveryLaws
  import opened RecoveryWindows
  import Pipelines

  type Call = Pipelines.Call

  /** A recovery window that a heartbeat has told its session and next number. */
  method PrimedWindow(session: Bytes, first: U64, slots: nat, packetBytes: nat) returns (recovery: RecoveryWindow)
    requires |session| == 10 && slots > 0 && packetBytes >= HEADER_BYTES
    ensures fresh(recovery) && fresh(recovery.tracker) && fresh(recovery.slots)
    ensures recovery.Valid() && recovery.Model() == Seeded(session, first)
    ensures recovery.slots.Length == slots && recovery.maxDatagramBytes == packetBytes
  {
    hide RecoveryWindow.Valid, Recovery.Ingest, Decode, HeaderBytes, Quiet, Sound;
    recovery := new RecoveryWindow(slots, packetBytes);
    var seed := MakeRequestPacket(session, first, 0);
    SeedDecodes(session, first, slots, packetBytes);
    var status, log := recovery.Ingest(seed);
  }

  class UftBookMoldFeed {
    const pipeline: Pipelines.UftOrderBookPipeline
    const session: Bytes
    const recovery: RecoveryWindow
    ghost const start: U64
    ghost const begin: seq<Bytes>
    ghost var announced: int
    ghost var arrivals: seq<Option<Datagram>>
    ghost var fate: Fate

    /** The run of the recovery window over every datagram that reached it. */
    ghost function Story(): History
      requires AllParsed(arrivals) && Quiet(Seeded(session, start))
      reads `arrivals
    {
      Run(Seed(session, start), recovery.slots.Length, recovery.maxDatagramBytes, arrivals)
    }

    /** The fate after a log, once its arrival has been counted in. */
    ghost function Next(before: Fate, log: seq<Output>): Fate
      requires AllParsed(arrivals) && Quiet(Seeded(session, start))
      reads `arrivals, pipeline`started
    {
      Relayed(before, Ends(log), Unstarted(log, pipeline.started),
              Refuses(pipeline.Config(), begin, Story().delivered), |Story().delivered|)
    }

    /** The window is where that run leaves it, and the pipeline holds what the run delivered. */
    ghost predicate Told()
      reads `arrivals, `fate, pipeline`state, pipeline`applied, recovery, recovery.tracker
      reads pipeline`netVolume, pipeline.book`view, pipeline.matches`Contents
    {
      && AllParsed(arrivals) && Quiet(Seeded(session, start)) && recovery.Model() == Story().window
      && Explained(pipeline.Config(), begin, Story().delivered, fate, pipeline.state.Faulted?, pipeline.applied,
                   pipeline.Model())
      && EndsTold(pipeline.Config(), session, start, begin, recovery.slots.Length, recovery.maxDatagramBytes, arrivals,
                  fate)
    }

    /** The pipeline expects what the recovery window expects, and is live only past every announced number. */
    ghost predicate Together()
      reads `announced, pipeline`state, pipeline`next, pipeline`highWater, recovery, recovery.tracker
    {
      && recovery.Model().initialized && recovery.Model().session == session
      && session == pipeline.session && |session| == 10
      && (!pipeline.state.Faulted? ==> recovery.Model().next == pipeline.next && announced <= pipeline.highWater)
    }

    ghost predicate Valid()
      reads `announced, `arrivals, `fate
      reads pipeline, pipeline.adapter, pipeline.adapter.orders, pipeline.adapter.orders.entries
      reads pipeline.adapter.matches, pipeline.adapter.matches.entries
      reads pipeline.book, pipeline.book.nodes, pipeline.book.bids, pipeline.book.asks, pipeline.book.bidBits
      reads pipeline.book.askBits
      reads pipeline.book.index, pipeline.book.index.entries, pipeline.matches, pipeline.matches.entries
      reads recovery, recovery.tracker, recovery.slots
    {
      pipeline.Valid() && recovery.Valid() && Together() && Told()
    }

    /** Prime the window at the pipeline's boundary with a heartbeat, not with the first packet that arrives. */
    constructor (pipeline: Pipelines.UftOrderBookPipeline, session: Bytes, slots: nat, packetBytes: nat)
      requires pipeline.Valid() && |session| == 10 && session == pipeline.session
      requires slots > 0 && packetBytes >= HEADER_BYTES
      ensures Valid() && this.pipeline == pipeline && this.session == session && announced == 0
      ensures recovery.Model() == Seeded(session, pipeline.next)
      ensures recovery.slots.Length == slots && recovery.maxDatagramBytes == packetBytes
      ensures start == pipeline.next && begin == pipeline.applied && arrivals == []
      ensures fate == if pipeline.state.Faulted? then Spoiled else Open
    {
      hide Pipelines.UftOrderBookPipeline.Valid, RecoveryWindow.Valid, Recovery.Ingest, Decode, HeaderBytes,
           Pipelines.Replay, Explained, EndsTold, Run, AllParsed, Quiet, Seeded, Sound, Texts;
      this.pipeline, this.session := pipeline, session;
      announced, arrivals := 0, [];
      fate := if pipeline.state.Faulted? then Spoiled else Open;
      start, begin := pipeline.next, pipeline.applied;
      var window := PrimedWindow(session, pipeline.next, slots, packetBytes);
      recovery := window;
      new;
      if !pipeline.state.Faulted? {
        pipeline.VolumeIsNetTraded();
      }
      Untold(session, start, recovery.slots.Length, recovery.maxDatagramBytes, pipeline.Config(), begin,
             pipeline.state.Faulted?, pipeline.Model());
      assert Told();
    }

    /**
     Hand the window's callbacks to the pipeline: messages in order, then an end of session, which
     invalidates it. A recovered message is never early and never repeated.
     */
    method Relay(log: seq<Output>, ghost from: int, ghost to: int)
      returns (requests: seq<Output>, calls: seq<Call>, ghost answers: seq<Pipelines.IngestResult>)
      requires pipeline.Valid() && session == pipeline.session && Runs(log, from, to) && 0 <= from && to <= U64_MAX
      requires !pipeline.state.Faulted? ==> pipeline.next == from
      modifies pipeline, pipeline.matches, pipeline.matches.entries
      modifies pipeline.adapter, pipeline.adapter.orders, pipeline.adapter.orders.entries
      modifies pipeline.adapter.matches, pipeline.adapter.matches.entries
      modifies pipeline.book`view, pipeline.book`free, pipeline.book`active, pipeline.book`bestBid
      modifies pipeline.book`bestAsk
      modifies pipeline.book.nodes, pipeline.book.bids, pipeline.book.asks, pipeline.book.bidBits, pipeline.book.askBits
      modifies pipeline.book.index, pipeline.book.index.entries
      ensures pipeline.Valid() && pipeline.highWater == old(pipeline.highWater)
      ensures old(pipeline.state).Faulted? ==> pipeline.state.Faulted? && calls == []
      ensures !pipeline.state.Faulted? ==> pipeline.next == to
      ensures forall i :: 0 <= i < |answers| ==> answers[i].Applied? || answers[i].Failed?
      ensures |answers| == to - from
      ensures forall i :: 0 <= i < |calls| ==> calls[i].sequence >= pipeline.highWater && from <= calls[i].sequence < to
      ensures requests == Requests(log) && pipeline.started == old(pipeline.started)
      ensures Moves(pipeline.Config(), Spell(log), Ends(log), Unstarted(log, pipeline.started),
                    old(pipeline.state).Faulted?, old(pipeline.applied), old(pipeline.Model()),
                    pipeline.state.Faulted?, pipeline.applied, pipeline.Model())
      ensures Ends(log) ==> pipeline.state.Faulted?
    {
      hide Pipelines.UftOrderBookPipeline.Valid, Pipelines.Meaning, Pipelines.UftOrderBookPipeline.Model,
           Pipelines.Replay, Spell, Requests, Ends, Texts, IsEnd, Moves;
      requests, calls, answers := [], [], [];
      ghost var base, s, begun, model := pipeline.applied, pipeline.Config(), pipeline.started, pipeline.Model();
      ghost var faulted := pipeline.state.Faulted?;
      LogStarts(log);
      if !faulted {
        pipeline.VolumeIsNetTraded();
      }
      NothingMoves(s, faulted, base, model);
      for i := 0 to |log|
        invariant pipeline.Valid() && pipeline.highWater == old(pipeline.highWater) && pipeline.started == begun
        invariant old(pipeline.state).Faulted? ==> pipeline.state.Faulted? && calls == []
        invariant !pipeline.state.Faulted? ==> pipeline.next == from + |answers|
        invariant |answers| == if i < to - from then i else to - from
        invariant forall k :: 0 <= k < |answers| ==> answers[k].Applied? || answers[k].Failed?
        invariant forall k :: 0 <= k < |calls| ==>
                    calls[k].sequence >= pipeline.highWater && from <= calls[k].sequence < to
        invariant requests == Requests(log[..i])
        invariant i <= to - from ==> !Ends(log[..i])
        invariant Ends(log[..i]) ==> pipeline.state.Faulted?
        invariant Moves(s, Spell(log[..i]), Ends(log[..i]), Unstarted(log[..i], begun), faulted, base, model,
                        pipeline.state.Faulted?, pipeline.applied, pipeline.Model())
      {
        var o := log[i];
        LogStep(log, i);
        assert Spell(log[..i]) + [] == Spell(log[..i]);
        ghost var faulted1, applied1, model1 := pipeline.state.Faulted?, pipeline.applied, pipeline.Model();
        if o.Message? {
          if !pipeline.state.Faulted? {
            pipeline.VolumeIsNetTraded();
            Pipelines.ReplayNext(s, pipeline.applied, o.message, pipeline.Model());
          }
          var r, called := pipeline.Ingest(session, o.sequence, o.message);
          answers := answers + [r];
          if called.Some? {
            calls := calls + [called.value];
          }
          MessageMoves(s, Spell(log[..i]), Visit(o.sequence, o.message), begun, faulted, base, model,
                       faulted1, applied1, model1, pipeline.state.Faulted?, pipeline.applied, pipeline.Model());
        } else if o.Control? {
          if o.kind.EndOfSession? {
            pipeline.Invalidate();
            EndMoves(s, Spell(log[..i]), Ends(log[..i]), Unstarted(log[..i], begun), faulted, base, model,
                     faulted1, applied1, model1);
          }
        } else {
          requests := requests + [o];
        }
      }
      assert log[..|log|] == log;
    }

    /** A header ahead of the pipeline announces every number before its end. */
    method Announce(h: Header)
      requires Valid() && Announces(h) <= U64_MAX
      modifies this`announced, pipeline`state, pipeline`highWater
      ensures Valid() && old(announced) <= announced
      ensures pipeline.state.Faulted? <==> old(pipeline.state).Faulted?
      ensures h.first > pipeline.next && !old(pipeline.state).Faulted? ==> announced >= Announces(h)
    {
      hide Pipelines.UftOrderBookPipeline.Valid, RecoveryWindow.Valid;
      if h.first > pipeline.next {
        var last := if Kind(h).Data? then h.first + h.count - 1 else h.first - 1;
        if !pipeline.state.Faulted? && announced < last {
          announced := last;
        }
        pipeline.NoteGap(last);
      }
    }

    /** Run a well-formed datagram of the session through the window and relay what it releases. */
    method Recover(data: Bytes)
      returns (status: Status, requests: seq<Output>, calls: seq<Call>, ghost answers: seq<Pipelines.IngestResult>)
      requires Valid() && exists messages :: Carries(data, messages)
      modifies this`arrivals, this`fate, recovery, recovery.tracker, recovery.slots
      modifies pipeline, pipeline.matches, pipeline.matches.entries
      modifies pipeline.adapter, pipeline.adapter.orders, pipeline.adapter.orders.entries
      modifies pipeline.adapter.matches, pipeline.adapter.matches.entries
      modifies pipeline.book`view, pipeline.book`free, pipeline.book`active, pipeline.book`bestBid
      modifies pipeline.book`bestAsk
      modifies pipeline.book.nodes, pipeline.book.bids, pipeline.book.asks, pipeline.book.bidBits, pipeline.book.askBits
      modifies pipeline.book.index, pipeline.book.index.entries
      ensures Valid()
      ensures old(pipeline.state).Faulted? ==> pipeline.state.Faulted?
      ensures forall i :: 0 <= i < |answers| ==> answers[i].Applied? || answers[i].Failed?
      ensures forall i :: 0 <= i < |calls| ==> calls[i].sequence >= announced && old(pipeline.next) <= calls[i].sequence
      ensures status.EndSeen? ==> pipeline.state.Faulted?
      ensures arrivals == old(arrivals) + [Decode(data)]
      ensures var s := Answer(old(recovery.Model()), recovery.slots.Length, recovery.maxDatagramBytes, data);
              && recovery.Model() == s.window && status == s.status && requests == Requests(s.log)
              && fate == Next(old(fate), s.log)
    {
      hide Pipelines.UftOrderBookPipeline.Valid, RecoveryWindow.Valid, Recovery.Ingest, Decode, Carries, Refused, Runs,
           Quiet, Explained, EndsTold, Moves, Run, AllParsed, Ends, Unstarted, Texts, Spell, Requests, Refuses;
      recovery.IsQuiet();
      ghost var w, story := recovery.Model(), Story();
      var log;
      status, log := recovery.Ingest(data);
      StepRuns(w, recovery.slots.Length, recovery.maxDatagramBytes, data);
      RunNext(Seed(session, start), recovery.slots.Length, recovery.maxDatagramBytes, arrivals, Decode(data));
      ghost var faulted, applied, model := pipeline.state.Faulted?, pipeline.applied, pipeline.Model();
      requests, calls, answers := Relay(log, w.next, recovery.Model().next);
      ExplainedStep(pipeline.Config(), begin, story.delivered, fate, Spell(log), Ends(log),
                    Unstarted(log, pipeline.started), faulted, applied, model,
                    pipeline.state.Faulted?, pipeline.applied, pipeline.Model());
      EndsToldStep(pipeline.Config(), session, start, begin, recovery.slots.Length, recovery.maxDatagramBytes,
                   arrivals, fate, Decode(data), Unstarted(log, pipeline.started));
      arrivals := arrivals + [Decode(data)];
      fate := Next(fate, log);
    }

    /**
     One complete datagram, received or recovered. Between calls the pipeline expects exactly what the
     window expects; a recovered message is never early or repeated; the strategy is called only once
     every number announced by any header ahead of the stream has been applied.
     */
    method Ingest(data: Bytes)
      returns (status: Status, requests: seq<Output>, calls: seq<Call>, ghost answers: seq<Pipelines.IngestResult>)
      requires Valid()
      modifies this`announced, this`arrivals, this`fate, recovery, recovery.tracker, recovery.slots
      modifies pipeline, pipeline.matches, pipeline.matches.entries
      modifies pipeline.adapter, pipeline.adapter.orders, pipeline.adapter.orders.entries
      modifies pipeline.adapter.matches, pipeline.adapter.matches.entries
      modifies pipeline.book`view, pipeline.book`free, pipeline.book`active, pipeline.book`bestBid
      modifies pipeline.book`bestAsk
      modifies pipeline.book.nodes, pipeline.book.bids, pipeline.book.asks, pipeline.book.bidBits, pipeline.book.askBits
      modifies pipeline.book.index, pipeline.book.index.entries
      ensures Valid()
      ensures old(pipeline.state).Faulted? ==> pipeline.state.Faulted?
      ensures forall i :: 0 <= i < |answers| ==> answers[i].Applied? || answers[i].Failed?
      ensures forall i :: 0 <= i < |calls| ==> calls[i].sequence >= announced && old(pipeline.next) <= calls[i].sequence
      ensures old(announced) <= announced
      ensures Heard(data, session) && HeaderOf(data).first > old(pipeline.next) && !old(pipeline.state).Faulted? ==>
                announced >= Announces(HeaderOf(data))
      ensures !Heard(data, session) ==>
                && (status.Malformed? || status.WrongSession?) && requests == [] && fate == Troubled(old(fate))
                && arrivals == old(arrivals) && recovery.Model() == old(recovery.Model())
      ensures Heard(data, session) ==>
                && arrivals == old(arrivals) + [Decode(data)]
                && var s := Answer(old(recovery.Model()), recovery.slots.Length, recovery.maxDatagramBytes, data);
                   && recovery.Model() == s.window && status == s.status && requests == Requests(s.log)
                   && var after := Next(old(fate), s.log); fate == if Fatal(status) then Troubled(after) else after
      ensures Fatal(status) || status.EndSeen? ==> pipeline.state.Faulted?
      ensures status in {Malformed, WrongSession, DatagramTooLarge, ReorderWindowFull, NumberOverflow, EndSeen} ==>
                pipeline.state.Faulted?
      ensures Fatal(status) ==> status in {Malformed, WrongSession, DatagramTooLarge, ReorderWindowFull, NumberOverflow}
      ensures Heard(data, session) && HeaderOf(data).first > old(pipeline.next) && !old(pipeline.state).Faulted? ==>
                && announced >= HeaderOf(data).first - 1
                && (0 < HeaderOf(data).count < 0xFFFF ==>
                      announced >= HeaderOf(data).first + HeaderOf(data).count - 1)
    {
      hide Pipelines.UftOrderBookPipeline.Valid, RecoveryWindow.Valid, Recovery.Ingest, Decode, Carries, Refused, Runs,
           Quiet, Together, Told, Requests, Ends, Unstarted, Spell, Answer, Next, Troubled;
      requests, calls, answers := [], [], [];
      var parsed, unused := Parse(data);
      if parsed.error != NoError {
        Spoil();
        return Malformed, [], [], [];
      }
      var h := parsed.header.value;
      if h.session != session {
        Spoil();
        return WrongSession, [], [], [];
      }
      AnnouncedFits(data);
      Announce(h);
      status, requests, calls, answers := Recover(data);
      if Fatal(status) {
        Spoil();
      }
    }

    /** Invalidate the pipeline for a fault of the transport. */
    method Spoil()
      requires Valid()
      modifies this`fate, pipeline`state
      ensures Valid() && fate == Troubled(old(fate)) && pipeline.state.Faulted?
    {
      hide Pipelines.UftOrderBookPipeline.Valid, RecoveryWindow.Valid, Run, Pipelines.Replay, Texts, Quiet, AllParsed,
           Refuses, Holding, Announced, Signalled;
      pipeline.Invalidate();
      fate := Troubled(fate);
    }
  }

  /**
   Two feeds that started alike and received every datagram of one coherent set, in any order and with
   any repetitions, are in the same condition: while both are open, both are faulted or neither is, and
   when they are not, book, ledger and volume are the same.
   */
  lemma OrderNeverShows(a: UftBookMoldFeed, b: UftBookMoldFeed, ds: set<Datagram>)
    requires a.Valid() && b.Valid() && a.session == b.session && a.start == b.start && a.begin == b.begin
    requires a.pipeline.Config() == b.pipeline.Config()
    requires Coherent(ds) && |ds| <= a.recovery.slots.Length && |ds| <= b.recovery.slots.Length
    requires forall d :: d in ds ==> Fits(d, a.session, a.recovery.maxDatagramBytes)
    requires forall d :: d in ds ==> Fits(d, a.session, b.recovery.maxDatagramBytes)
    requires AllDrawn(ds, a.session, a.arrivals) && AllDrawn(ds, a.session, b.arrivals)
    requires forall d :: d in ds ==> Some(d) in a.arrivals && Some(d) in b.arrivals
    requires a.fate.Open? && b.fate.Open?
    ensures a.pipeline.state.Faulted? <==> b.pipeline.state.Faulted?
    ensures a.recovery.Model().next == b.recovery.Model().next
    ensures !a.pipeline.state.Faulted? ==>
              && a.pipeline.Model() == b.pipeline.Model() && a.pipeline.applied == b.pipeline.applied
              && a.pipeline.next == b.pipeline.next
  {
    hide Pipelines.UftOrderBookPipeline.Valid, RecoveryWindow.Valid, Pipelines.Replay, Texts, Run, Coherent, Fits,
         AllDrawn, Quiet, AllParsed, EndsTold;
    Confluence(a.session, a.start, ds, a.recovery.slots.Length, a.recovery.maxDatagramBytes, a.arrivals,
               b.recovery.slots.Length, b.recovery.maxDatagramBytes, b.arrivals);
    if !a.pipeline.state.Faulted? {
      a.pipeline.VolumeIsNetTraded();
      b.pipeline.VolumeIsNetTraded();
    }
  }
}
