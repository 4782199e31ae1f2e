/** The adapter class over two bounded hash tables, proved against the adapter on values. */
module ItchAdapters {
  import opened Collections
  import opened Machine
  import opened MoldUdp64
  import opened Itch50
  import opened Adapter
  import opened FixedHashTables
  import Books

  class NasdaqItchUftAdapter {
    const locator: U16
    const orders: FixedHashTable<Order>
    const matches: FixedHashTable<MatchRow>
    var sourceSequence: nat
    var malformed: nat
    var capacityExhaustions: nat
    var unknownBroken: nat

    ghost function Repr(): set<object> {
      {this, orders, orders.entries, matches, matches.entries}
    }

    ghost function Model(): Tables
      reads orders, matches
    {
      Tables(orders.Contents, matches.Contents)
    }

    ghost function Lim(): Limits {
      Limits(orders.maximumEntries, matches.maximumEntries)
    }

    ghost predicate Apart()
    {
      var o: object, m: object, oe: object, me: object := orders, matches, orders.entries, matches.entries;
      o != m && oe != me && o != oe && o != me && m != oe && m != me
    }

    ghost predicate Valid()
      reads this, orders, orders.entries, matches, matches.entries
    {
      orders.Valid() && matches.Valid() && Apart() && Fine(Model(), Lim())
    }

    constructor (locator: U16, maximumActiveOrders: U64, maximumUniqueMatches: U64, orderHash: nat -> nat,
                 matchHash: nat -> nat)
      requires 0 < maximumActiveOrders <= 0x4000_0000_0000_0000 && 0 < maximumUniqueMatches <= 0x4000_0000_0000_0000
      ensures Valid() && Model() == Tables(map[], map[]) && Lim() == Limits(maximumActiveOrders, maximumUniqueMatches)
      ensures fresh(Repr()) && this.locator == locator
      ensures sourceSequence == malformed == capacityExhaustions == unknownBroken == 0
    {
      hide FixedHashTable.Valid;
      this.locator := locator;
      orders := new FixedHashTable(maximumActiveOrders, orderHash);
      matches := new FixedHashTable(maximumUniqueMatches, matchHash);
      sourceSequence, malformed, capacityExhaustions, unknownBroken := 0, 0, 0, 0;
    }

    ghost function Counters(): (nat, nat, nat)
      reads this
    {
      (malformed, capacityExhaustions, unknownBroken)
    }

    method CountInsertFailure(r: InsertResult) returns (ghost verdict: Verdict)
      modifies this`malformed, this`capacityExhaustions
      ensures verdict == if r.Full? then Exhausted else MalformedMessage
      ensures Counters() == Counted(verdict, old(Counters()))
    {
      if r.Full? {
        capacityExhaustions := capacityExhaustions + 1;
        verdict := Exhausted;
      } else {
        malformed := malformed + 1;
        verdict := MalformedMessage;
      }
    }

    /** A zero quantity is counted instead of published. */
    method EmitTransaction(transaction: nat, kind: TransactionKind, side: OptionalSide, price: int, quantity: nat,
                           order: nat)
      returns (log: seq<Emission>)
      modifies this`malformed
      ensures quantity == 0 ==> log == [] && malformed == old(malformed) + 1
      ensures quantity != 0 ==>
                log == [Transaction(transaction, kind, side, price, quantity, order)] && malformed == old(malformed)
    {
      if quantity == 0 {
        malformed := malformed + 1;
        return [];
      }
      log := [Transaction(transaction, kind, side, price, quantity, order)];
    }

    method Reject() returns (log: seq<Emission>, ghost verdict: Verdict)
      modifies this`malformed
      ensures log == [] && verdict == MalformedMessage && Counters() == Counted(verdict, old(Counters()))
    {
      malformed := malformed + 1;
      log, verdict := [], MalformedMessage;
    }

    /** Lower an order through the pointer find() returned; erase it when nothing is left. */
    method Lower(id: nat, order: Order, quantity: nat)
      requires orders.Valid() && Apart() && id in orders.Contents && orders.Contents[id] == order
      requires quantity <= order.remaining
      modifies orders, orders.entries
      ensures orders.Valid() && orders.Contents == Lowered(old(orders.Contents), id, quantity)
    {
      hide FixedHashTable.Valid;
      orders.Assign(id, order.(remaining := order.remaining - quantity));
      if order.remaining == quantity {
        var erased := orders.Erase(id);
        assert orders.Contents == old(orders.Contents) - {id};
      }
    }

    /** Add Order, with or without attribution. */
    method Add(m: ItchMessage) returns (log: seq<Emission>, ghost verdict: Verdict)
      requires Valid() && m.AddOrder?
      modifies this`malformed, this`capacityExhaustions, this`unknownBroken
      modifies orders, orders.entries, matches, matches.entries
      ensures orders.Valid() && matches.Valid()
      ensures Handled(Model(), verdict, log) == HandleAdd(old(Model()), Lim(), m)
      ensures Counters() == Counted(verdict, old(Counters()))
    {
      hide FixedHashTable.Valid;
      if m.side == None || m.quantity == 0 || m.price == 0 {
        log, verdict := Reject();
        return;
      }
      var order := Books.Order(m.side.value, m.price, m.quantity);
      var inserted := orders.Insert(m.id, order);
      if inserted != Inserted {
        verdict := CountInsertFailure(inserted);
        return [], verdict;
      }
      log := [OrderDetail(m.id, order.side, order.price, order.remaining)];
      log := log + [BookEvent(BookUpdate(AddAction, m.id, 0, 0, order.price, m.quantity, m.side, false))];
      verdict := Accepted;
    }

    /** Order Executed, with or without price; a repeated match is not published as a trade again. */
    method Execute(m: ItchMessage) returns (log: seq<Emission>, ghost verdict: Verdict)
      requires Valid() && m.OrderExecuted?
      modifies this`malformed, this`capacityExhaustions, this`unknownBroken
      modifies orders, orders.entries, matches, matches.entries
      ensures orders.Valid() && matches.Valid()
      ensures Handled(Model(), verdict, log) == HandleExecute(old(Model()), Lim(), m)
      ensures Counters() == Counted(verdict, old(Counters()))
    {
      hide FixedHashTable.Valid;
      hide Lowered;
      var found := orders.Find(m.id);
      if found == None || m.quantity == 0 || m.quantity > found.value.remaining {
        log, verdict := Reject();
        return;
      }
      var order: Order := found.value;
      var price := if m.priced then m.price else order.price;
      var printable := !m.priced || m.flag == 'Y' as int;
      if price <= 0 || (m.priced && m.flag != 'Y' as int && m.flag != 'N' as int) {
        log, verdict := Reject();
        return;
      }
      var first := matches.Insert(m.matchId, MatchRow(price, m.quantity, m.id, Some(order.side), printable));
      if first == Full || first == InvalidKey {
        verdict := CountInsertFailure(first);
        return [], verdict;
      }
      log := [];
      if printable && first == Inserted {
        log := EmitTransaction(m.matchId, TradeDone, Some(order.side), price, m.quantity, m.id);
      }
      log := log
        + [BookEvent(BookUpdate(ExecutionAction, m.id, 0, m.matchId, price, m.quantity, Some(order.side), printable))];
      Lower(m.id, order, m.quantity);
      verdict := Accepted;
    }

    /** Order Cancel: take part of an order away. */
    method CancelPartial(m: ItchMessage) returns (log: seq<Emission>, ghost verdict: Verdict)
      requires Valid() && m.OrderCancel?
      modifies this`malformed, this`capacityExhaustions, this`unknownBroken
      modifies orders, orders.entries, matches, matches.entries
      ensures orders.Valid() && matches.Valid()
      ensures Handled(Model(), verdict, log) == HandleCancel(old(Model()), sourceSequence, m)
      ensures Counters() == Counted(verdict, old(Counters()))
    {
      hide FixedHashTable.Valid;
      hide Lowered;
      var found := orders.Find(m.id);
      if found == None || m.quantity == 0 || m.quantity > found.value.remaining {
        log, verdict := Reject();
        return;
      }
      var order: Order := found.value;
      log := EmitTransaction(sourceSequence, Canceled, Some(order.side), order.price, m.quantity, m.id);
      log := log + [BookEvent(BookUpdate(ReduceAction, m.id, 0, 0, order.price, m.quantity, Some(order.side), false))];
      Lower(m.id, order, m.quantity);
      verdict := Accepted;
    }

    /** Order Delete. */
    method CancelAll(m: ItchMessage) returns (log: seq<Emission>, ghost verdict: Verdict)
      requires Valid() && m.OrderDelete?
      modifies this`malformed, this`capacityExhaustions, this`unknownBroken
      modifies orders, orders.entries, matches, matches.entries
      ensures orders.Valid() && matches.Valid()
      ensures Handled(Model(), verdict, log) == HandleDelete(old(Model()), sourceSequence, m)
      ensures Counters() == Counted(verdict, old(Counters()))
    {
      hide FixedHashTable.Valid;
      var found := orders.Find(m.id);
      if found == None {
        log, verdict := Reject();
        return;
      }
      var order: Order := found.value;
      log := EmitTransaction(sourceSequence, Canceled, Some(order.side), order.price, order.remaining, m.id);
      log := log
        + [BookEvent(BookUpdate(DeleteAction, m.id, 0, 0, order.price, order.remaining, Some(order.side), false))];
      var erased := orders.Erase(m.id);
      verdict := Accepted;
    }

    lemma StoredPositive()
      requires Valid()
      ensures Positive(Model()) && |orders.Contents| <= orders.maximumEntries
      ensures forall id :: id in orders.Contents ==> orders.Contents[id].remaining > 0
    {
    }

    /** Order Replace: a new id, price and size on the same side. */
    method Replace(m: ItchMessage) returns (log: seq<Emission>, ghost verdict: Verdict)
      requires Valid() && m.OrderReplace?
      modifies this`malformed, this`capacityExhaustions, this`unknownBroken
      modifies orders, orders.entries, matches, matches.entries
      ensures orders.Valid() && matches.Valid()
      ensures Handled(Model(), verdict, log) == HandleReplace(old(Model()), sourceSequence, m)
      ensures Counters() == Counted(verdict, old(Counters()))
    {
      hide FixedHashTable.Valid, Fine, Positive;
      StoredPositive();
      ghost var before := orders.Contents;
      var found := orders.Find(m.id);
      if found == None || m.newId == 0 || m.quantity == 0 || m.price == 0 {
        log, verdict := Reject();
        return;
      }
      var taken := orders.Find(m.newId);
      if taken != None {
        log, verdict := Reject();
        return;
      }
      var order: Order := found.value;
      var erased := orders.Erase(m.id);
      Smaller(before, m.id);
      var replacement := Books.Order(order.side, m.price, m.quantity);
      var inserted := orders.Insert(m.newId, replacement);
      if inserted != Inserted {
        // Unreachable: the erase made room and the new id is neither zero nor taken.
        assert false;
      }
      log := EmitTransaction(sourceSequence, Canceled, Some(order.side), order.price, order.remaining, m.id);
      log := log + [OrderDetail(m.newId, replacement.side, replacement.price, replacement.remaining)];
      log := log + [BookEvent(BookUpdate(ReplaceAction, m.id, m.newId, 0, replacement.price, m.quantity,
                                         Some(replacement.side), false))];
      verdict := Accepted;
    }

    /** Trade and Cross Trade: a match against no displayed order, once. */
    method TradeMessage(m: ItchMessage) returns (log: seq<Emission>, ghost verdict: Verdict)
      requires Valid() && (m.NonCrossTrade? || m.CrossTrade?)
      modifies this`malformed, this`capacityExhaustions, this`unknownBroken
      modifies orders, orders.entries, matches, matches.entries
      ensures orders.Valid() && matches.Valid()
      ensures Handled(Model(), verdict, log) == HandleTrade(old(Model()), Lim(), m)
      ensures Counters() == Counted(verdict, old(Counters()))
    {
      hide FixedHashTable.Valid;
      var row := TradeRow(m);
      if row.quantity == 0 || row.price <= 0 || (m.NonCrossTrade? && row.side == None) {
        log, verdict := Reject();
        return;
      }
      var first := matches.Insert(m.matchId, row);
      if first == Inserted {
        log := [BookEvent(BookUpdate(TradeAction, row.orderId, 0, m.matchId, row.price, row.quantity, row.side, true))];
        var trade := EmitTransaction(m.matchId, TradeDone, row.side, row.price, row.quantity, row.orderId);
        log, verdict := log + trade, Accepted;
      } else if first == InsertResult.Duplicate {
        log, verdict := [], Accepted;
      } else {
        verdict := CountInsertFailure(first);
        log := [];
      }
    }

    /** Broken Trade: forget the match and publish its bust if it had been published. */
    method BrokenTradeMessage(m: ItchMessage) returns (log: seq<Emission>, ghost verdict: Verdict)
      requires Valid() && m.BrokenTrade?
      modifies this`malformed, this`capacityExhaustions, this`unknownBroken
      modifies orders, orders.entries, matches, matches.entries
      ensures orders.Valid() && matches.Valid()
      ensures Handled(Model(), verdict, log) == HandleBroken(old(Model()), m)
      ensures Counters() == Counted(verdict, old(Counters()))
    {
      hide FixedHashTable.Valid;
      var found := matches.Find(m.matchId);
      if found == None {
        unknownBroken := unknownBroken + 1;
        return [], UnknownBroken;
      }
      var row: MatchRow := found.value;
      log := [BookEvent(BookUpdate(BustAction, row.orderId, 0, m.matchId, row.price, row.quantity,
                                   row.side, row.emitted))];
      if row.emitted {
        var bust := EmitTransaction(m.matchId, TradeBust, row.side, row.price, row.quantity, row.orderId);
        log := log + bust;
      }
      var erased := matches.Erase(m.matchId);
      verdict := Accepted;
    }

    /** One raw message: the events it publishes, in order. */
    method OnMessage(m: Bytes) returns (log: seq<Emission>)
      requires Valid()
      modifies this, orders, orders.entries, matches, matches.entries
      ensures Valid()
      ensures sourceSequence == if Mine(locator, m) then old(sourceSequence) + 1 else old(sourceSequence)
      ensures var h := Receive(old(Model()), Lim(), locator, sourceSequence, m);
              && Model() == h.tables && log == h.log && Counters() == Counted(h.verdict, old(Counters()))
              && malformed == old(malformed) + (if h.verdict == MalformedMessage then 1 else 0)
              && capacityExhaustions == old(capacityExhaustions) + (if h.verdict == Exhausted then 1 else 0)
              && unknownBroken == old(unknownBroken) + (if h.verdict == UnknownBroken then 1 else 0)
    {
      hide FixedHashTable.Valid, HandleAdd, HandleExecute, HandleCancel, HandleDelete, HandleReplace, HandleTrade,
           HandleBroken, Fine, Fields, WellSizedMessage, Locator;
      log := [];
      if |m| < 11 || Locator(m) != locator {
        return;
      }
      sourceSequence := sourceSequence + 1;
      if |m| != ExpectedMessageSize(m[0]) {
        NotWellSized(m);
        malformed := malformed + 1;
        return;
      }
      NotWellSized(m);
      ghost var verdict: Verdict := Accepted;
      HandleFine(Model(), Lim(), sourceSequence, Fields(m));
      var fields := Fields(m);
      match fields {
        case AddOrder(_, _, _, _) => log, verdict := Add(fields);
        case OrderExecuted(_, _, _, _, _, _) => log, verdict := Execute(fields);
        case OrderCancel(_, _) => log, verdict := CancelPartial(fields);
        case OrderDelete(_) => log, verdict := CancelAll(fields);
        case OrderReplace(_, _, _, _) => log, verdict := Replace(fields);
        case NonCrossTrade(_, _, _, _, _) => log, verdict := TradeMessage(fields);
        case CrossTrade(_, _, _) => log, verdict := TradeMessage(fields);
        case BrokenTrade(_) => log, verdict := BrokenTradeMessage(fields);
        case NotBook =>
      }
    }

    /** Number of live orders. */
    method ActiveOrders() returns (n: nat)
      requires Valid()
      ensures n == |Model().orders|
    {
      n := orders.size;
    }
  }

  lemma NotWellSized(m: Bytes)
    requires |m| >= 11
    ensures WellSizedMessage(m) <==> |m| == ExpectedMessageSize(m[0])
  {
  }

  /** The error counters after a verdict. */
  function Counted(v: Verdict, before: (nat, nat, nat)): (nat, nat, nat) {
    (before.0 + if v.MalformedMessage? then 1 else 0, before.1 + if v.Exhausted? then 1 else 0,
     before.2 + if v.UnknownBroken? then 1 else 0)
  }
}
