/** The single-instrument pipeline: adapter, dense book and match ledger under one feed state machine. */
module Pipelines {
  import opened Machine
  import opened MoldUdp64
  import opened Itch50
  import opened Adapter
  import opened AdapterLaws
  import opened ItchAdapters
  import opened FixedHashTables
  import opened DenseBooks
  import opened Replicas
  import opened Sums
  import B = Books

  datatype BookFeedState = Live | Recovering | Faulted
  datatype IngestResult = Applied | Repeated | Ahead | Failed

  /** One strategy notification; None is a recovery that completed on a message without book event. */
  datatype Call = Call(update: Option<BookUpdate>, sequence: int, volume: int)

  datatype Setting = Setting(lim: Limits, grid: seq<int>, locator: int)

  /** What one raw message means; messages of other instruments mean nothing here. */
  function Meaning(r: Replica, s: Setting, m: Bytes): Option<Replica> {
    if !WellSizedMessage(m) then None
    else if Locator(m) != s.locator then Some(r)
    else Follow(r, s.lim, s.grid, Fields(m))
  }

  /** The fold of the stream semantics over a message list. */
  function Replay(s: Setting, messages: seq<Bytes>): Option<Replica>
    decreases |messages|
  {
    if messages == [] then Some(EMPTY_REPLICA)
    else
      var before := Replay(s, messages[..|messages| - 1]);
      if before == None then None else Meaning(before.value, s, messages[|messages| - 1])
  }

  lemma ReplayNext(s: Setting, messages: seq<Bytes>, m: Bytes, r: Replica)
    requires Replay(s, messages) == Some(r)
    ensures Replay(s, messages + [m]) == Meaning(r, s, m)
  {
    assert (messages + [m])[..|messages|] == messages;
  }

  lemma Beginning(s: Setting)
    ensures Agree(Tables(map[], map[]), EMPTY_REPLICA) && Weigh([], NetTraded) == 0
    ensures Sum(EMPTY_REPLICA.ledger, Printed) == 0 && Sum<MatchRow>(map[], EmittedQuantity) == 0
    ensures forall any :: Replay(any, []) == Some(EMPTY_REPLICA)
  {
  }

  /** The grid the constructor configures holds exactly the multiples of the tick in the price range. */
  lemma GridRange(grid: seq<int>, minimum: int, tick: int, maximum: int, p: int)
    requires tick > 0 && minimum <= maximum && (maximum - minimum) % tick == 0
    requires IsGrid(grid, minimum, tick, (maximum - minimum) / tick + 1)
    ensures p in grid <==> minimum <= p <= maximum && (p - minimum) % tick == 0
  {
    var top := (maximum - minimum) / tick;
    DivideSteps(maximum - minimum, tick);
    if p in grid {
      var l :| 0 <= l < |grid| && grid[l] == p;
      assert grid[l] == minimum + Steps(l, tick);
      StepsDivide(l, tick);
      if l < top {
        StepsIncrease(l, top, tick);
      }
      if l > 0 {
        StepsIncrease(0, l, tick);
      }
    }
    if minimum <= p <= maximum && (p - minimum) % tick == 0 {
      DivideSteps(p - minimum, tick);
      var l := (p - minimum) / tick;
      if l > top {
        StepsIncrease(top, l, tick);
      }
      assert grid[l] == minimum + Steps(l, tick);
    }
  }

  class UftOrderBookPipeline {
    const session: Bytes
    const firstSequence: U64
    const adapter: NasdaqItchUftAdapter
    const book: DensePriceOrderBook
    const matches: FixedHashTable<LedgerRow>
    var next: U64
    var highWater: U64
    var callbacks: nat
    var netVolume: int
    var state: BookFeedState
    var last: Option<BookUpdate>
    var pending: bool
    var started: bool
    ghost var applied: seq<Bytes>
    ghost var emitted: seq<Emission>

    ghost function Model(): Replica
      reads `netVolume, book`view, matches`Contents
    {
      Replica(book.view.book, matches.Contents, netVolume)
    }

    ghost function Config(): Setting
    {
      Setting(adapter.Lim(), book.grid, adapter.locator)
    }

    ghost predicate Sized()
    {
      book.nodes.Length == adapter.orders.maximumEntries && matches.maximumEntries == adapter.matches.maximumEntries
    }

    /** The book, the ledger and the volume are in order, faulted or not. */
    ghost predicate Accounts()
      reads `netVolume, book, book.nodes, book.bids, book.asks, book.bidBits, book.askBits, book.index
      reads book.index.entries, matches, matches.entries
    {
      && book.Valid() && matches.Valid() && Sized()
      && 0 <= netVolume <= U64_MAX && netVolume == Sum(matches.Contents, Printed)
    }

    ghost predicate Traded()
      reads `emitted, adapter.orders, adapter.matches
    {
      Weigh(emitted, NetTraded) == Sum(adapter.Model().matches, EmittedQuantity)
    }

    /** While not faulted the two sides agree and hold what the applied messages mean. */
    ghost predicate InSync()
      reads `netVolume, `applied, `next, `highWater, `state, book`view, matches`Contents, adapter.orders
      reads adapter.matches
    {
      && Agree(adapter.Model(), Model()) && Replay(Config(), applied) == Some(Model())
      && next == firstSequence + |applied|
      && (state.Live? ==> highWater < next) && (state.Recovering? ==> next <= highWater)
    }

    ghost predicate Valid()
      reads `netVolume, `applied, `emitted, `next, `highWater, `state
      reads adapter, adapter.orders, adapter.orders.entries, adapter.matches, adapter.matches.entries
      reads book, book.nodes, book.bids, book.asks, book.bidBits, book.askBits, book.index, book.index.entries
      reads matches, matches.entries
    {
      adapter.Valid() && Accounts() && Traded() && (!state.Faulted? ==> InSync())
    }

    constructor (session: Bytes, first: U64, locator: U16, maxOrders: nat, maxMatches: U64,
                 minimum: int, tick: int, levels: U32, orderHash: nat -> nat, matchHash: nat -> nat,
                 ledgerHash: nat -> nat, indexHash: nat -> nat)
      requires 0 < maxOrders < U32_MAX && 0 < maxMatches <= 0x4000_0000_0000_0000 && first > 0
      requires levels <= U32_MAX - 63
      ensures Valid() && state == Live && !started && next == first && firstSequence == first && this.session == session
      ensures Model() == EMPTY_REPLICA && applied == [] && emitted == []
      ensures fresh(adapter.Repr()) && fresh(book.Repr()) && fresh(matches) && fresh(matches.entries)
      ensures IsGrid(book.grid, minimum, tick, levels)
      ensures Config() == Setting(Limits(maxOrders, maxMatches), book.grid, locator)
    {
      hide NasdaqItchUftAdapter.Valid, DensePriceOrderBook.Valid, FixedHashTable.Valid, IsGrid, Sum, Weigh, Agree,
           Replay;
      Beginning(Setting(Limits(maxOrders, maxMatches), [], locator));
      this.session, firstSequence := session, first;
      adapter := new NasdaqItchUftAdapter(locator, maxOrders, maxMatches, orderHash, matchHash);
      book := new DensePriceOrderBook(maxOrders, minimum, tick, levels, indexHash);
      matches := new FixedHashTable(maxMatches, ledgerHash);
      next, highWater, callbacks, netVolume := first, 0, 0, 0;
      state, last, pending, started := Live, None, false, false;
      applied, emitted := [], [];
    }

    method Fault() returns (r: IngestResult)
      modifies this`state
      ensures state == Faulted && r == Failed
    {
      state := Faulted;
      r := Failed;
    }

    method Start() returns (ok: bool)
      requires Valid()
      modifies this`started
      ensures Valid() && started && ok == !old(started)
    {
      hide Accounts, Traded, InSync, NasdaqItchUftAdapter.Valid;
      ok := !started;
      started := true;
    }

    /** Enter a match in the ledger, once. */
    method Record(e: BookUpdate) returns (ok: bool)
      requires Accounts()
      modifies this`netVolume, matches, matches.entries
      ensures Accounts()
      ensures var entered := Enter(old(Model()), Config().lim, e.matchId, e.quantity, e.printable);
              ok == entered.Some? && Model() == if ok then entered.value else old(Model())
    {
      hide DensePriceOrderBook.Valid, FixedHashTable.Valid, Sum;
      var known := matches.Find(e.matchId);
      if known.Some? {
        return !known.value.busted;
      }
      if e.printable && e.quantity > U64_MAX - netVolume {
        return false;
      }
      var row := LedgerRow(e.quantity, e.printable, false);
      SumPut(matches.Contents, Printed, e.matchId, row);
      var inserted := matches.Insert(e.matchId, row);
      if inserted != Inserted {
        return false;
      }
      if e.printable {
        netVolume := netVolume + e.quantity;
      }
      ok := true;
    }

    /** Mark a match busted and take it out of the volume. */
    method Bust(e: BookUpdate) returns (ok: bool)
      requires Accounts() && e.action.BustAction?
      modifies this`netVolume, matches, matches.entries
      ensures Accounts()
      ensures var busted := Update(old(Model()), Config().lim, Config().grid, e);
              ok == busted.Some? && Model() == if ok then busted.value else old(Model())
    {
      hide DensePriceOrderBook.Valid, FixedHashTable.Valid, Sum;
      var found := matches.Find(e.matchId);
      ok := found.Some? && !found.value.busted;
      if ok {
        var row: LedgerRow := found.value;
        SumPut(matches.Contents, Printed, e.matchId, row.(busted := true));
        RowWithin(matches.Contents, e.matchId);
        if row.printable {
          netVolume := netVolume - row.quantity;
        }
        matches.Assign(e.matchId, row.(busted := true));
      }
    }

    /** The order part of an update: feed operations that match nothing locally. */
    method Mutate(e: BookUpdate) returns (ok: bool)
      requires Accounts() && !e.action.BustAction? && !e.action.TradeAction?
      modifies book`view, book`free, book`active, book`bestBid, book`bestAsk
      modifies book.nodes, book.bids, book.asks, book.bidBits, book.askBits, book.index, book.index.entries
      ensures Accounts()
      ensures var mutated := Reshape(old(Model()), Config().lim, Config().grid, e);
              ok == mutated.Some? && Model() == if ok then mutated.value else old(Model())
    {
      hide DensePriceOrderBook.Valid, FixedHashTable.Valid, Sum, B.Add, B.Reduce, B.Remove;
      if e.quantity == 0 {
        return false;
      }
      if e.action.AddAction? {
        if e.side == None {
          return false;
        }
        ok := book.FeedAdd(e.id, e.side.value, e.price, e.quantity);
      } else if e.action.DeleteAction? {
        var remaining := book.Remaining(e.id);
        if remaining != e.quantity {
          return false;
        }
        ok := book.FeedDelete(e.id);
      } else if e.action.ReplaceAction? {
        ok := book.FeedReplace(e.id, e.newId, e.price, e.quantity);
      } else {
        ok := book.FeedReduce(e.id, e.quantity);
      }
    }

    /** Apply one published update; on failure the pipeline is faulted. */
    method Apply(e: BookUpdate)
      requires Accounts() && !state.Faulted?
      modifies this`state, this`last, this`pending, this`netVolume, matches, matches.entries
      modifies book`view, book`free, book`active, book`bestBid, book`bestAsk
      modifies book.nodes, book.bids, book.asks, book.bidBits, book.askBits, book.index, book.index.entries
      ensures Accounts()
      ensures var updated := Update(old(Model()), Config().lim, Config().grid, e);
              && (state.Faulted? <==> updated == None)
              && (updated.Some? ==> Model() == updated.value && state == old(state) && pending && last == Some(e))
    {
      hide Accounts, Enter, Reshape;
      ghost var r := Model();
      UpdateParts(r, Config().lim, Config().grid, e);
      var ok := e.quantity != 0;
      if e.action.BustAction? {
        ok := Bust(e);
      } else if e.action.TradeAction? {
        if ok {
          ok := Record(e);
        }
      } else {
        ok := Mutate(e);
        if ok && e.action.ExecutionAction? {
          ok := Record(e);
        }
      }
      if !ok {
        var failed := Fault();
        return;
      }
      last, pending := Some(e), true;
    }

    /** Hand the book events of an emission log to the book, in order. */
    method ApplyAll(log: seq<Emission>)
      requires Accounts() && !state.Faulted? && !pending
      modifies this`state, this`last, this`pending, this`netVolume, matches, matches.entries
      modifies book`view, book`free, book`active, book`bestBid, book`bestAsk
      modifies book.nodes, book.bids, book.asks, book.bidBits, book.askBits, book.index, book.index.entries
      ensures Accounts()
      ensures var updated := UpdateAll(old(Model()), Config().lim, Config().grid, log);
              && (state.Faulted? <==> updated == None)
              && (updated.Some? ==> Model() == updated.value && state == old(state) && pending == Published(log).Some?
                                    && (pending ==> last == Published(log)))
    {
      hide Accounts, Update;
      ghost var r, lim, grid := Model(), Config().lim, Config().grid;
      assert log[..0] == [];
      for i := 0 to |log|
        invariant Accounts()
        invariant state.Faulted? <==> UpdateAll(r, lim, grid, log[..i]) == None
        invariant !state.Faulted? ==> UpdateAll(r, lim, grid, log[..i]) == Some(Model()) && state == old(state)
        invariant !state.Faulted? ==> pending == Published(log[..i]).Some? && (pending ==> last == Published(log[..i]))
      {
        assert log[..i + 1][..i] == log[..i];
        if !state.Faulted? && log[i].BookEvent? {
          Apply(log[i].update);
        }
      }
      assert log[..|log|] == log;
    }

    /** The cross-check of the two independent order counts. */
    method ActiveMismatch() returns (uneven: bool)
      requires adapter.Valid() && Accounts()
      ensures uneven <==> |Model().book.orders| != |adapter.Model().orders|
    {
      hide DensePriceOrderBook.Valid, FixedHashTable.Valid, Sum;
      var live := book.ActiveOrders();
      var known := adapter.ActiveOrders();
      uneven := live != known;
    }

    /** Pass a message to the adapter; refused when one of its error counters moved. */
    method Hear(m: Bytes) returns (log: seq<Emission>, refused: bool)
      requires adapter.Valid() && Traded()
      modifies this`emitted
      modifies adapter, adapter.orders, adapter.orders.entries, adapter.matches, adapter.matches.entries
      ensures adapter.Valid() && Traded() && emitted == old(emitted) + log
      ensures var h := Receive(old(adapter.Model()), Config().lim, Config().locator, adapter.sourceSequence, m);
              adapter.Model() == h.tables && log == h.log && (refused <==> h.verdict != Accepted)
    {
      hide Receive, NasdaqItchUftAdapter.Valid, Weigh, Sum;
      ghost var t := adapter.Model();
      var malformed, exhausted, broken := adapter.malformed, adapter.capacityExhaustions, adapter.unknownBroken;
      log := adapter.OnMessage(m);
      NextTraded(t, Config(), adapter.sourceSequence, m, emitted);
      emitted := emitted + log;
      refused := adapter.malformed != malformed || adapter.capacityExhaustions != exhausted
                 || adapter.unknownBroken != broken;
    }

    /** Run the next message through the adapter and the book. */
    method Consume(m: Bytes) returns (ghost log: seq<Emission>)
      requires Valid() && !state.Faulted? && WellSizedMessage(m)
      modifies this`state, this`last, this`pending, this`netVolume, this`emitted, matches, matches.entries
      modifies adapter, adapter.orders, adapter.orders.entries, adapter.matches, adapter.matches.entries
      modifies book`view, book`free, book`active, book`bestBid, book`bestAsk
      modifies book.nodes, book.bids, book.asks, book.bidBits, book.askBits, book.index, book.index.entries
      ensures adapter.Valid() && Accounts() && Traded() && emitted == old(emitted) + log
      ensures log == Receive(old(adapter.Model()), Config().lim, Config().locator, adapter.sourceSequence, m).log
      ensures var meant := Meaning(old(Model()), Config(), m);
              && (state.Faulted? <==> meant == None)
              && (meant.Some? ==> Model() == meant.value && Agree(adapter.Model(), Model()) && state == old(state)
                                  && pending == Published(log).Some? && (pending ==> last == Published(log)))
    {
      hide Accounts, Traded, Agree, Receive, Meaning, UpdateAll, Published, NasdaqItchUftAdapter.Valid,
           WellSizedMessage, Replay;
      ghost var t, r := adapter.Model(), Model();
      AdapterFine();
      LedgerWithin();
      pending := false;
      var published, refused := Hear(m);
      log := published;
      NextDecides(t, r, Config(), adapter.sourceSequence, m);
      Settle(published, refused);
    }

    /** Apply what the adapter published, then cross-check the two sides. */
    method Settle(published: seq<Emission>, refused: bool)
      requires adapter.Valid() && Accounts() && Traded() && !state.Faulted? && !pending
      modifies this`state, this`last, this`pending, this`netVolume, matches, matches.entries
      modifies book`view, book`free, book`active, book`bestBid, book`bestAsk
      modifies book.nodes, book.bids, book.asks, book.bidBits, book.askBits, book.index, book.index.entries
      ensures adapter.Valid() && Accounts() && Traded() && adapter.Model() == old(adapter.Model())
      ensures var updated := UpdateAll(old(Model()), Config().lim, Config().grid, published);
              && (state.Faulted? <==>
                    refused || updated == None || |updated.value.book.orders| != |adapter.Model().orders|)
              && (!state.Faulted? ==>
                    Model() == updated.value && state == old(state) && pending == Published(published).Some?
                                      && (pending ==> last == Published(published)))
    {
      hide Accounts, Traded, UpdateAll, Published, NasdaqItchUftAdapter.Valid;
      ApplyAll(published);
      var uneven := ActiveMismatch();
      if refused || uneven {
        state := Faulted;
      }
    }

    /** The expected message: refused and faulted, or applied and perhaps shown to the strategy. */
    method Accept(m: Bytes) returns (r: IngestResult, called: Option<Call>, ghost log: seq<Emission>)
      requires Valid() && !state.Faulted? && next < U64_MAX
      modifies this, matches, matches.entries
      modifies adapter, adapter.orders, adapter.orders.entries, adapter.matches, adapter.matches.entries
      modifies book`view, book`free, book`active, book`bestBid, book`bestAsk
      modifies book.nodes, book.bids, book.asks, book.bidBits, book.askBits, book.index, book.index.entries
      ensures Valid() && started == old(started) && highWater == old(highWater)
      ensures r == if Meaning(old(Model()), Config(), m) == None then Failed else Applied
      ensures r.Failed? ==> state.Faulted? && next == old(next) && applied == old(applied) && called == None
      ensures r.Applied? ==>
                && Some(Model()) == Meaning(old(Model()), Config(), m) && next == old(next) + 1
                && applied == old(applied) + [m]
                && state == (if next > highWater then Live else Recovering)
                && emitted == old(emitted) + log
                && log == Receive(old(adapter.Model()), Config().lim, Config().locator, adapter.sourceSequence, m).log
      ensures r.Applied? ==>
                called == if state.Live? && (Published(log).Some? || old(state).Recovering?)
                          then Some(Call(Published(log), old(next), netVolume)) else None
      ensures callbacks == old(callbacks) + if called.Some? then 1 else 0
    {
      hide Accounts, Traded, Agree, Meaning, Replay, NasdaqItchUftAdapter.Valid, Receive, Published, WellSizedMessage;
      log := [];
      MeaningSized(Model(), Config(), m);
      if !WellSizedMessage(m) {
        r := Fault();
        return r, None, log;
      }
      ReplayNext(Config(), applied, m, Model());
      log := Consume(m);
      if state.Faulted? {
        return Failed, None, log;
      }
      called := Notify(m);
      r := Applied;
    }

    /** Count an applied message in, leave recovery when nothing announced is missing, and call the strategy. */
    method Notify(m: Bytes) returns (called: Option<Call>)
      requires adapter.Valid() && Accounts() && Traded() && !state.Faulted? && next < U64_MAX
      requires Agree(adapter.Model(), Model()) && Replay(Config(), applied + [m]) == Some(Model())
      requires next == firstSequence + |applied| && (state.Live? ==> highWater < next)
      requires (state.Recovering? ==> next <= highWater)
      modifies this`applied, this`next, this`state, this`callbacks
      ensures Valid() && next == old(next) + 1 && applied == old(applied) + [m]
      ensures state == if next > highWater then Live else Recovering
      ensures called == if state.Live? && (pending || old(state).Recovering?)
                        then Some(Call(if pending then last else None, old(next), netVolume)) else None
      ensures callbacks == old(callbacks) + if called.Some? then 1 else 0
    {
      hide Accounts, Traded, Agree, Replay, NasdaqItchUftAdapter.Valid, DensePriceOrderBook.Valid, FixedHashTable.Valid;
      var recovered := state.Recovering? && next + 1 > highWater;
      var live := state.Live? || recovered;
      var notify := live && (pending || recovered);
      called := if notify then Some(Call(if pending then last else None, next, netVolume)) else None;
      applied, next, state := applied + [m], next + 1, if recovered then Live else state;
      callbacks := if notify then callbacks + 1 else callbacks;
    }

    /**
     One message of the transport channel. A message that the stream semantics refuses faults the
     pipeline; every other one in sequence moves the replica by exactly its meaning. The strategy is
     called only in the live state, after the whole message has been applied.
     */
    method Ingest(session: Bytes, sequence: U64, m: Bytes) returns (r: IngestResult, called: Option<Call>)
      requires Valid()
      modifies this, matches, matches.entries
      modifies adapter, adapter.orders, adapter.orders.entries, adapter.matches, adapter.matches.entries
      modifies book`view, book`free, book`active, book`bestBid, book`bestAsk
      modifies book.nodes, book.bids, book.asks, book.bidBits, book.askBits, book.index, book.index.entries
      ensures Valid() && started == old(started)
      ensures r == if !started || old(state).Faulted? || session != this.session then Failed
                   else if sequence < old(next) then Repeated
                   else if sequence == U64_MAX then Failed
                   else if sequence > old(next) then Ahead
                   else if Meaning(old(Model()), Config(), m) == None then Failed
                   else Applied
      ensures r.Failed? ==> state.Faulted?
      ensures r.Repeated? ==> state == old(state)
      ensures !r.Ahead? ==> highWater == old(highWater)
      ensures r.Ahead? ==>
                state.Recovering? && highWater == if old(highWater) < sequence then sequence else old(highWater)
      ensures r.Applied? ==>
                && Some(Model()) == Meaning(old(Model()), Config(), m) && next == old(next) + 1
                && applied == old(applied) + [m]
                && state == if next > highWater then Live else Recovering
      ensures !r.Applied? ==> next == old(next) && applied == old(applied) && called == None
      ensures r.Repeated? || r.Ahead? || old(state).Faulted? ==> Model() == old(Model())
      ensures r.Applied? ==>
                var log := Receive(old(adapter.Model()), Config().lim, Config().locator, adapter.sourceSequence, m).log;
                called == if state.Live? && (Published(log).Some? || old(state).Recovering?)
                          then Some(Call(Published(log), sequence, netVolume)) else None
      ensures called.Some? ==> state.Live? && called.value.sequence == sequence && called.value.volume == netVolume
      ensures called.Some? && called.value.update == None ==> old(state).Recovering?
      ensures callbacks == old(callbacks) + if called.Some? then 1 else 0
    {
      hide Accounts, Traded, Agree, Meaning, Replay, NasdaqItchUftAdapter.Valid, Receive, Published;
      called := None;
      if !started || state.Faulted? || session != this.session {
        r := Fault();
        return;
      }
      if sequence < next {
        return Repeated, None;
      }
      if sequence == U64_MAX {
        r := Fault();
        return;
      }
      if sequence > next {
        state := Recovering;
        highWater := if highWater < sequence then sequence else highWater;
        return Ahead, None;
      }
      ghost var log;
      r, called, log := Accept(m);
    }

    /** A feed controller reports the last number known to be missing. */
    method NoteGap(highest: U64)
      requires Valid()
      modifies this`state, this`highWater
      ensures Valid()
      ensures if old(state).Faulted? || highest < next then state == old(state) && highWater == old(highWater)
              else state.Recovering? && highWater == if old(highWater) < highest then highest else old(highWater)
    {
      hide Accounts, Traded, Agree, Replay, NasdaqItchUftAdapter.Valid;
      if state.Faulted? || highest < next {
        return;
      }
      state := Recovering;
      highWater := if highWater < highest then highest else highWater;
    }

    method Invalidate()
      requires Valid()
      modifies this`state
      ensures Valid() && state.Faulted?
    {
      hide Accounts, Traded, NasdaqItchUftAdapter.Valid;
      var failed := Fault();
    }

    /** While not faulted the printed volume is the net traded quantity the adapter has published. */
    lemma VolumeIsNetTraded()
      requires Valid() && !state.Faulted?
      ensures netVolume == Weigh(emitted, NetTraded) == Sum(matches.Contents, Printed)
      ensures adapter.Model().orders == Model().book.orders
      ensures Replay(Config(), applied) == Some(Model()) && |applied| == next - firstSequence
    {
      hide NasdaqItchUftAdapter.Valid, DensePriceOrderBook.Valid, FixedHashTable.Valid, Sum, Weigh, Replay;
    }

    lemma AdapterFine()
      requires adapter.Valid()
      ensures Fine(adapter.Model(), Config().lim)
    {
    }

    lemma LedgerWithin()
      requires Accounts()
      ensures |Model().ledger| <= Config().lim.matches
    {
    }
  }

  lemma MeaningSized(r: Replica, s: Setting, m: Bytes)
    ensures !WellSizedMessage(m) ==> Meaning(r, s, m) == None
  {
  }

  /** The adapter's answer to a message and the meaning of the message stay in step. */
  lemma NextInStep(t: Tables, r: Replica, s: Setting, sequence: nat, m: Bytes)
    requires Agree(t, r) && Fine(t, s.lim) && |r.ledger| <= s.lim.matches && WellSizedMessage(m)
    ensures InStep(Receive(t, s.lim, s.locator, sequence, m), r, s.lim, s.grid, Meaning(r, s, m))
  {
    hide InStep, Agree, Fine, Follow, Handle, Fields;
    if Mine(s.locator, m) {
      HandleInStep(t, r, s.lim, s.grid, sequence, Fields(m));
    } else {
      NothingInStep(t, r, s.lim, s.grid);
    }
  }

  /** What that says for the cross-check: the order counts never differ on their own. */
  lemma NextDecides(t: Tables, r: Replica, s: Setting, sequence: nat, m: Bytes)
    requires Agree(t, r) && Fine(t, s.lim) && |r.ledger| <= s.lim.matches && WellSizedMessage(m)
    ensures var h, meant := Receive(t, s.lim, s.locator, sequence, m), Meaning(r, s, m);
            var updated := UpdateAll(r, s.lim, s.grid, h.log);
            && (meant == None <==> h.verdict != Accepted || updated == None)
            && (meant.Some? ==>
                  updated == meant && Agree(h.tables, meant.value) && |meant.value.book.orders| == |h.tables.orders|)
  {
    hide Agree, Fine, Receive, Meaning, UpdateAll;
    NextInStep(t, r, s, sequence, m);
    if Meaning(r, s, m).Some? {
      AgreeCounts(Receive(t, s.lim, s.locator, sequence, m).tables, Meaning(r, s, m).value);
    }
  }

  lemma AgreeCounts(t: Tables, r: Replica)
    requires Agree(t, r)
    ensures |t.orders| == |r.book.orders|
  {
  }

  lemma NextTraded(t: Tables, s: Setting, sequence: nat, m: Bytes, emitted: seq<Emission>)
    requires Weigh(emitted, NetTraded) == Sum(t.matches, EmittedQuantity)
    ensures var h := Receive(t, s.lim, s.locator, sequence, m);
            Weigh(emitted + h.log, NetTraded) == Sum(h.tables.matches, EmittedQuantity)
  {
    hide Sum, Handle, Fields, WellSizedMessage;
    var h := Receive(t, s.lim, s.locator, sequence, m);
    WeighJoin(emitted, h.log, NetTraded);
    WeighFew(h.log, NetTraded);
    if Mine(s.locator, m) && WellSizedMessage(m) {
      HandleNetted(t, s.lim, sequence, Fields(m));
    }
  }

  /** Number of grid levels; None models the exception for an invalid exchange price grid. */
  function Levels(minimum: I64, maximum: I64, tick: I64): Option<U32> {
    if minimum <= 0 || maximum < minimum || tick <= 0 then None
    else if (maximum - minimum) % tick != 0 || (maximum - minimum) / tick > U32_MAX - 64 then None
    else
      DivideSteps(maximum - minimum, tick);
      Some((maximum - minimum) / tick + 1)
  }

  /** On an accepted grid every 64-bit price computation of the book stays in range. */
  lemma GeometryFits(minimum: I64, maximum: I64, tick: I64, level: nat, price: I64)
    requires Levels(minimum, maximum, tick).Some? && level < Levels(minimum, maximum, tick).value
    ensures 0 <= Steps(level, tick) <= maximum - minimum && minimum + Steps(level, tick) <= maximum
    ensures price >= minimum ==> 0 <= price - minimum <= I64_MAX
    ensures Levels(minimum, maximum, tick).value <= U32_MAX - 63
  {
    var top := (maximum - minimum) / tick;
    DivideSteps(maximum - minimum, tick);
    if level < top {
      StepsIncrease(level, top, tick);
    }
    if level > 0 {
      StepsIncrease(0, level, tick);
    }
  }

  /** The constructor's checks: a pipeline exactly for a valid configuration, on exactly the configured prices. */
  method Configure(session: Bytes, first: U64, locator: U16, maxOrders: U64, maxMatches: U64,
                   minimum: I64, maximum: I64, tick: I64,
                   orderHash: nat -> nat, matchHash: nat -> nat, ledgerHash: nat -> nat, indexHash: nat -> nat)
    returns (r: Option<UftOrderBookPipeline>)
    ensures r.Some? <==> session != [] && 0 < first < U64_MAX && 0 < maxOrders < U32_MAX
                         && 0 < maxMatches <= 0x4000_0000_0000_0000 && Levels(minimum, maximum, tick).Some?
    ensures r.Some? ==>
              r.value.Valid() && r.value.state.Live? && r.value.next == first && r.value.Model() == EMPTY_REPLICA
    ensures r.Some? ==>
              && r.value.session == session && r.value.firstSequence == first && !r.value.started
              && r.value.Config() == Setting(Limits(maxOrders, maxMatches), r.value.book.grid, locator)
    ensures r.Some? ==> forall p :: p in r.value.book.grid <==> minimum <= p <= maximum && (p - minimum) % tick == 0
  {
    hide UftOrderBookPipeline.Valid, IsGrid;
    var levels := Levels(minimum, maximum, tick);
    if maxOrders == 0 || maxOrders >= U32_MAX || levels == None || maxMatches == 0
       || maxMatches > 0x4000_0000_0000_0000 {
      return None;
    }
    if session == [] || first == 0 || first == U64_MAX {
      return None;
    }
    var p := new UftOrderBookPipeline(session, first, locator, maxOrders, maxMatches, minimum, tick, levels.value,
                                      orderHash, matchHash, ledgerHash, indexHash);
    forall price
      ensures price in p.book.grid <==> minimum <= price <= maximum && (price - minimum) % tick == 0
    {
      GridRange(p.book.grid, minimum, tick, maximum, price);
    }
    r := Some(p);
  }

  lemma RowWithin(ledger: map<nat, LedgerRow>, k: nat)
    requires k in ledger
    ensures 0 <= Printed(ledger[k]) <= Sum(ledger, Printed)
  {
    SumWithout(ledger, Printed, k);
    SumNonNegative(ledger - {k}, Printed);
  }

  /** The book part of an update, before any match is entered. */
  function Reshape(r: Replica, lim: Limits, grid: seq<int>, u: BookUpdate): Option<Replica>
    requires !u.action.BustAction? && !u.action.TradeAction?
  {
    if u.action.ExecutionAction? then Update(r, lim, grid, u.(action := ReduceAction)) else Update(r, lim, grid, u)
  }

  lemma UpdateParts(r: Replica, lim: Limits, grid: seq<int>, u: BookUpdate)
    ensures u.action in {AddAction, ReduceAction, DeleteAction, ReplaceAction} ==>
              Update(r, lim, grid, u) == Reshape(r, lim, grid, u)
    ensures u.action.TradeAction? ==>
              Update(r, lim, grid, u) == if u.quantity == 0 then None
                                         else Enter(r, lim, u.matchId, u.quantity, u.printable)
    ensures u.action.ExecutionAction? ==>
              Update(r, lim, grid, u) == (var reshaped := Reshape(r, lim, grid, u);
                                          if reshaped == None then None
                                          else Enter(reshaped.value, lim, u.matchId, u.quantity, u.printable))
  {
  }
}
