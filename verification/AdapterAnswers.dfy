/**
 What each published event says, against the tables before and after the message: sides, prices,
 quantities and ids, and when a message is taken at all.
 */
module AdapterAnswers {
  import opened Machine
  import opened MoldUdp64
  import opened Itch50
  import opened Adapter
  import opened AdapterLaws
  import Books

  // ---- Published events ----

  /** The shares a message took from an order. */
  function Taken(t: Tables, t': Tables, id: nat): int
    requires id in t.orders
  {
    t.orders[id].remaining - if id in t'.orders then t'.orders[id].remaining else 0
  }

  /** An order that the tables hold now and did not hold before. */
  predicate Opens(t: Tables, t': Tables, id: nat, side: OptionalSide, price: int, quantity: nat) {
    id !in t.orders && id in t'.orders && side.Some? && t'.orders[id] == Books.Order(side.value, price, quantity)
  }

  /** An order that the tables held before, at its own side, with what it lost. */
  predicate Lowers(t: Tables, t': Tables, id: nat, side: OptionalSide, quantity: nat) {
    id in t.orders && side == Some(t.orders[id].side) && quantity == Taken(t, t', id) > 0
  }

  /** A match that is stored now and was not before, exactly as published. */
  predicate Stores(t: Tables, t': Tables, k: nat, row: MatchRow) {
    k !in t.matches && k in t'.matches && t'.matches[k] == row
  }

  predicate Drops(t: Tables, t': Tables, k: nat, row: MatchRow) {
    k in t.matches && t.matches[k] == row && k !in t'.matches
  }

  predicate RightTransaction(t: Tables, t': Tables, sequence: nat, e: Emission)
    requires e.Transaction?
  {
    match e.kind
    case Canceled =>
      e.transaction == sequence && Lowers(t, t', e.order, e.party, e.quantity) && e.price == t.orders[e.order].price
    case TradeDone =>
      Stores(t, t', e.transaction, MatchRow(e.price, e.quantity, e.order, e.party, true))
    case TradeBust =>
      Drops(t, t', e.transaction, MatchRow(e.price, e.quantity, e.order, e.party, true))
  }

  predicate RightUpdate(t: Tables, t': Tables, m: ItchMessage, u: BookUpdate) {
    match u.action
    case AddAction =>
      Opens(t, t', u.id, u.side, u.price, u.quantity) && !u.printable && u.newId == u.matchId == 0
    case ReduceAction =>
      && Lowers(t, t', u.id, u.side, u.quantity) && u.price == t.orders[u.id].price
      && !u.printable && u.newId == u.matchId == 0
    case DeleteAction =>
      && Lowers(t, t', u.id, u.side, u.quantity) && u.price == t.orders[u.id].price && u.id !in t'.orders
      && !u.printable && u.newId == u.matchId == 0
    case ReplaceAction =>
      && Opens(t, t', u.newId, u.side, u.price, u.quantity) && !u.printable && u.matchId == 0
      && u.id in t.orders && u.id !in t'.orders && u.side == Some(t.orders[u.id].side)
    case ExecutionAction =>
      && Lowers(t, t', u.id, u.side, u.quantity) && m.OrderExecuted? && u.matchId == m.matchId && u.newId == 0
      && u.price == (if m.priced then m.price else t.orders[u.id].price)
      && u.printable == (!m.priced || m.flag == 'Y' as int)
    case TradeAction =>
      Stores(t, t', u.matchId, MatchRow(u.price, u.quantity, u.id, u.side, true)) && u.printable && u.newId == 0
    case BustAction =>
      Drops(t, t', u.matchId, MatchRow(u.price, u.quantity, u.id, u.side, u.printable)) && u.newId == 0
  }

  /** The event says what the tables say. */
  predicate RightEvent(t: Tables, t': Tables, sequence: nat, m: ItchMessage, e: Emission) {
    match e
    case OrderDetail(id, side, price, quantity) => Opens(t, t', id, Some(side), price, quantity)
    case Transaction(_, _, _, _, _, _) => RightTransaction(t, t', sequence, e)
    case BookEvent(u) => RightUpdate(t, t', m, u)
  }

  ghost predicate RightLog(t: Tables, h: Handled, sequence: nat, m: ItchMessage)
  {
    forall i :: 0 <= i < |h.log| ==> RightEvent(t, h.tables, sequence, m, h.log[i])
  }

  lemma ExecuteRight(t: Tables, lim: Limits, sequence: nat, m: ItchMessage)
    requires m.OrderExecuted?
    ensures RightLog(t, HandleExecute(t, lim, m), sequence, m)
  {
  }

  lemma BrokenRight(t: Tables, sequence: nat, m: ItchMessage)
    requires m.BrokenTrade?
    ensures RightLog(t, HandleBroken(t, m), sequence, m)
  {
  }

  lemma WithdrawRight(t: Tables, sequence: nat, m: ItchMessage)
    requires Positive(t)
    ensures m.OrderCancel? ==> RightLog(t, HandleCancel(t, sequence, m), sequence, m)
    ensures m.OrderDelete? ==> RightLog(t, HandleDelete(t, sequence, m), sequence, m)
    ensures m.OrderReplace? ==> RightLog(t, HandleReplace(t, sequence, m), sequence, m)
  {
  }

  /** Every event that a message publishes is right: sides, prices, quantities and ids are those of the tables. */
  lemma HandleRight(t: Tables, lim: Limits, sequence: nat, m: ItchMessage)
    requires Positive(t)
    ensures RightLog(t, Handle(t, lim, sequence, m), sequence, m)
    ensures m.NotBook? ==> Handle(t, lim, sequence, m) == Handled(t, Accepted, [])
  {
    hide HandleExecute, HandleBroken, HandleCancel, HandleDelete, HandleReplace, Positive;
    match m {
      case AddOrder(_, _, _, _) =>
      case OrderExecuted(_, _, _, _, _, _) => ExecuteRight(t, lim, sequence, m);
      case OrderCancel(_, _) => WithdrawRight(t, sequence, m);
      case OrderDelete(_) => WithdrawRight(t, sequence, m);
      case OrderReplace(_, _, _, _) => WithdrawRight(t, sequence, m);
      case NonCrossTrade(_, _, _, _, _) =>
      case CrossTrade(_, _, _) =>
      case BrokenTrade(_) => BrokenRight(t, sequence, m);
      case NotBook =>
    }
  }

  /**
   A raw message: another instrument's does nothing, one of the wrong size is refused, and what any other
   publishes is right.
   */
  lemma ReceiveRight(t: Tables, lim: Limits, locator: int, sequence: nat, m: Bytes)
    requires Positive(t)
    ensures var h := Receive(t, lim, locator, sequence, m);
            && (|m| < 11 || (m[1] as int) * 256 + m[2] as int != locator ==> h == Handled(t, Accepted, []))
            && (|m| >= 11 && (m[1] as int) * 256 + m[2] as int == locator ==>
                  && (|m| != ExpectedMessageSize(m[0]) ==> h == Handled(t, MalformedMessage, []))
                  && (|m| == ExpectedMessageSize(m[0]) ==> RightLog(t, h, sequence, Fields(m))))
  {
    hide RightEvent, Handle, Fields, Positive, ExpectedMessageSize;
    if |m| >= 11 && |m| == ExpectedMessageSize(m[0]) {
      HandleRight(t, lim, sequence, Fields(m));
    }
  }

  /** Over every stream: what each message adds to the published events is right for that message. */
  lemma StreamRight(lim: Limits, locator: int, messages: seq<Bytes>, i: nat)
    requires i < |messages|
    ensures var before := Stream(FRESH, lim, locator, messages[..i]);
            var after, m := Stream(FRESH, lim, locator, messages[..i + 1]), messages[i];
            && before.log <= after.log
            && forall k :: |before.log| <= k < |after.log| ==>
                 && |m| >= 11 && (m[1] as int) * 256 + m[2] as int == locator && |m| == ExpectedMessageSize(m[0])
                 && RightEvent(before.tables, after.tables, after.sequence, Fields(m), after.log[k])
  {
    hide RightEvent, Handle, Fields, ExpectedMessageSize, Receive;
    var before, m := Stream(FRESH, lim, locator, messages[..i]), messages[i];
    assert messages[..i + 1][..i] == messages[..i];
    StreamConserves(lim, locator, messages[..i]);
    var after := Stream(FRESH, lim, locator, messages[..i + 1]);
    var h := Receive(before.tables, lim, locator, after.sequence, m);
    ReceiveRight(before.tables, lim, locator, after.sequence, m);
    forall k | |before.log| <= k < |after.log|
      ensures after.log[k] == h.log[k - |before.log|]
    {
    }
  }

  // ---- When a message is taken, and what it does to the tables ----

  /** Only this order changes: it loses the shares at its own terms, and is gone when none is left. */
  predicate LosesShares(orders: map<nat, Order>, orders': map<nat, Order>, id: nat, quantity: nat) {
    && id in orders && 0 < quantity <= orders[id].remaining
    && orders' - {id} == orders - {id}
    && (id in orders' <==> quantity < orders[id].remaining)
    && (id in orders' ==>
          orders'[id] == Books.Order(orders[id].side, orders[id].price, orders[id].remaining - quantity))
  }

  /** What the log shows, in order. */
  predicate Shows(log: seq<Emission>, details: nat, transactions: nat, kind: TransactionKind, action: BookAction) {
    && |log| == details + transactions + 1
    && (forall i :: 0 <= i < |log| && log[i].Transaction? ==> log[i].kind == kind)
    && (forall i :: 0 <= i < |log| && log[i].BookEvent? ==> log[i].update.action == action)
  }

  lemma LoweredLoses(orders: map<nat, Order>, id: nat, quantity: nat)
    requires id in orders && 0 < quantity <= orders[id].remaining
    ensures LosesShares(orders, Lowered(orders, id, quantity), id, quantity)
  {
    assert Lowered(orders, id, quantity) - {id} == orders - {id};
  }

  /** Exactly when an execution is taken: a live order, no more than it has, a positive price, a match number. */
  lemma ExecuteVerdict(t: Tables, lim: Limits, m: ItchMessage)
    requires Positive(t) && m.OrderExecuted?
    ensures var valid := m.id in t.orders && 0 < m.quantity <= t.orders[m.id].remaining && m.matchId != 0
                         && (m.priced ==> m.price > 0 && (m.flag == 'Y' as int || m.flag == 'N' as int));
            HandleExecute(t, lim, m).verdict
            == (if !valid then MalformedMessage
                else if m.matchId !in t.matches && |t.matches| >= lim.matches then Exhausted
                else Accepted)
  {
    hide Lowered;
  }

  /** The order loses the shares; a new match is stored at the execution's own price, or else the order's. */
  lemma ExecuteEffect(t: Tables, lim: Limits, m: ItchMessage)
    requires Positive(t) && m.OrderExecuted? && HandleExecute(t, lim, m).verdict.Accepted?
    ensures var t' := HandleExecute(t, lim, m).tables;
            && LosesShares(t.orders, t'.orders, m.id, m.quantity)
            && t'.matches == if m.matchId in t.matches then t.matches
                             else t.matches[m.matchId := MatchRow(if m.priced then m.price else t.orders[m.id].price,
                                                                  m.quantity, m.id, Some(t.orders[m.id].side),
                                                                  !m.priced || m.flag == 'Y' as int)]
  {
    hide Lowered, LosesShares;
    LoweredLoses(t.orders, m.id, m.quantity);
  }

  /** Its trade is published only when it is printable and its match number new, and its book event always, last. */
  lemma ExecuteShows(t: Tables, lim: Limits, m: ItchMessage)
    requires m.OrderExecuted?
    ensures var h := HandleExecute(t, lim, m);
            var first := m.matchId !in t.matches && (!m.priced || m.flag == 'Y' as int);
            h.verdict.Accepted? ==>
              && Shows(h.log, 0, if first then 1 else 0, TradeDone, ExecutionAction)
              && h.log[|h.log| - 1].BookEvent? && (first ==> h.log[0].Transaction?)
  {
    hide Lowered;
  }

  /** An add is taken exactly with a side, a quantity, a price and a new number while there is room. */
  lemma AddEffect(t: Tables, lim: Limits, m: ItchMessage)
    requires m.AddOrder?
    ensures var h := HandleAdd(t, lim, m);
            var valid := m.side.Some? && m.quantity > 0 && m.price > 0 && m.id != 0 && m.id !in t.orders;
            && h.verdict == (if !valid then MalformedMessage
                             else if |t.orders| >= lim.orders then Exhausted
                             else Accepted)
            && (h.verdict.Accepted? ==>
                  && h.tables.matches == t.matches
                  && h.tables.orders == t.orders[m.id := Books.Order(m.side.value, m.price, m.quantity)]
                  && Shows(h.log, 1, 0, TradeDone, AddAction) && h.log[0].OrderDetail? && h.log[1].BookEvent?)
  {
  }

  /** A cancellation is taken exactly for a live order and no more than it has, a delete for a live order. */
  lemma WithdrawEffect(t: Tables, sequence: nat, m: ItchMessage)
    requires Positive(t) && (m.OrderCancel? || m.OrderDelete?)
    ensures var h := if m.OrderCancel? then HandleCancel(t, sequence, m) else HandleDelete(t, sequence, m);
            var valid := m.id in t.orders && (m.OrderCancel? ==> 0 < m.quantity <= t.orders[m.id].remaining);
            && h.verdict == (if valid then Accepted else MalformedMessage)
            && (valid ==>
                  && h.tables.matches == t.matches
                  && LosesShares(t.orders, h.tables.orders, m.id,
                                 if m.OrderCancel? then m.quantity else t.orders[m.id].remaining)
                  && Shows(h.log, 0, 1, Canceled, if m.OrderCancel? then ReduceAction else DeleteAction)
                  && h.log[0].Transaction? && h.log[1].BookEvent?)
  {
    var h := if m.OrderCancel? then HandleCancel(t, sequence, m) else HandleDelete(t, sequence, m);
    if m.id in t.orders {
      assert h.tables.orders - {m.id} == t.orders - {m.id};
    }
  }

  /** A replacement is taken exactly for a live order, with a new number, a quantity and a price; it keeps the side. */
  lemma ReplaceEffect(t: Tables, sequence: nat, m: ItchMessage)
    requires Positive(t) && m.OrderReplace?
    ensures var h := HandleReplace(t, sequence, m);
            var valid := m.id in t.orders && m.newId != 0 && m.newId !in t.orders && m.quantity > 0 && m.price > 0;
            && h.verdict == (if valid then Accepted else MalformedMessage)
            && (valid ==>
                  && h.tables.matches == t.matches
                  && h.tables.orders
                     == (t.orders - {m.id})[m.newId := Books.Order(t.orders[m.id].side, m.price, m.quantity)]
                  && Shows(h.log, 1, 1, Canceled, ReplaceAction)
                  && h.log[0].Transaction? && h.log[1].OrderDetail? && h.log[2].BookEvent?)
  {
  }

  /** A trade is taken exactly with a quantity, a price and a match number, and a side if it is no cross; once. */
  lemma TradeEffect(t: Tables, lim: Limits, m: ItchMessage)
    requires m.NonCrossTrade? || m.CrossTrade?
    ensures var h := HandleTrade(t, lim, m);
            var row := if m.CrossTrade? then MatchRow(m.price, m.crossed, 0, None, true)
                       else MatchRow(m.price, m.quantity, m.id, m.side, true);
            var valid := row.quantity > 0 && row.price > 0 && m.matchId != 0 && (m.NonCrossTrade? ==> m.side.Some?);
            && h.verdict == (if !valid then MalformedMessage
                             else if m.matchId !in t.matches && |t.matches| >= lim.matches then Exhausted
                             else Accepted)
            && (valid && m.matchId in t.matches ==> h.tables == t && h.log == [])
            && (h.verdict.Accepted? && m.matchId !in t.matches ==>
                  && h.tables.orders == t.orders && h.tables.matches == t.matches[m.matchId := row]
                  && Shows(h.log, 0, 1, TradeDone, TradeAction) && h.log[0].BookEvent? && h.log[1].Transaction?)
  {
  }

  /** A broken trade is taken exactly for a stored match, which it drops; a bust is published if the trade was. */
  lemma BrokenEffect(t: Tables, m: ItchMessage)
    requires m.BrokenTrade?
    ensures var h := HandleBroken(t, m);
            && h.verdict == (if m.matchId in t.matches then Accepted else UnknownBroken)
            && (m.matchId in t.matches ==>
                  && h.tables.orders == t.orders && h.tables.matches == t.matches - {m.matchId}
                  && Shows(h.log, 0, if t.matches[m.matchId].emitted then 1 else 0, TradeBust, BustAction)
                  && h.log[0].BookEvent? && (|h.log| == 2 ==> h.log[1].Transaction?))
  {
  }
}
