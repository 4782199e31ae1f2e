/** What the ITCH adapter does with one message, on values. */
module Adapter {
  import opened Collections
  import opened Machine
  import opened Itch50
  import opened MoldUdp64
  import Books

  type Order = Books.Order

  datatype MatchRow = MatchRow(price: int, quantity: nat, orderId: nat, side: OptionalSide, emitted: bool)

  datatype BookAction =
    | AddAction | ReduceAction | DeleteAction | ReplaceAction | ExecutionAction | TradeAction | BustAction

  datatype BookUpdate = BookUpdate(action: BookAction, id: nat, newId: nat, matchId: nat, price: int, quantity: nat,
                                   side: OptionalSide, printable: bool)

  datatype TransactionKind = TradeDone | Canceled | TradeBust

  /** Everything the adapter publishes, in order. */
  datatype Emission =
    | OrderDetail(order: nat, side: Books.Side, price: int, quantity: nat)
    | Transaction(transaction: nat, kind: TransactionKind, party: OptionalSide, price: int, quantity: nat, order: nat)
    | BookEvent(update: BookUpdate)

  datatype Tables = Tables(orders: map<nat, Order>, matches: map<nat, MatchRow>)

  /** Which error counter a message raises, if any. */
  datatype Verdict = Accepted | MalformedMessage | Exhausted | UnknownBroken

  datatype Handled = Handled(tables: Tables, verdict: Verdict, log: seq<Emission>)

  datatype Limits = Limits(orders: nat, matches: nat)

  /** Stored quantities are positive. */
  ghost predicate Positive(t: Tables)
  {
    && (forall id :: id in t.orders ==> id != 0 && t.orders[id].remaining > 0 && t.orders[id].price > 0)
    && (forall k :: k in t.matches ==> k != 0 && t.matches[k].quantity > 0)
  }

  function Lowered(orders: map<nat, Order>, id: nat, quantity: nat): map<nat, Order>
    requires id in orders && quantity <= orders[id].remaining
  {
    if quantity == orders[id].remaining then orders - {id}
    else orders[id := orders[id].(remaining := orders[id].remaining - quantity)]
  }

  /** How a bounded table answers an insertion. */
  function InsertVerdict<V>(m: map<nat, V>, limit: nat, key: nat): Verdict {
    if key == 0 then MalformedMessage
    else if key in m then MalformedMessage
    else if |m| >= limit then Exhausted
    else Accepted
  }

  function HandleAdd(t: Tables, lim: Limits, m: ItchMessage): Handled
    requires m.AddOrder?
  {
    if m.side == None || m.quantity == 0 || m.price == 0 then Handled(t, MalformedMessage, [])
    else
      var verdict := InsertVerdict(t.orders, lim.orders, m.id);
      if verdict != Accepted then Handled(t, verdict, [])
      else
        Handled(t.(orders := t.orders[m.id := Books.Order(m.side.value, m.price, m.quantity)]), Accepted,
                [OrderDetail(m.id, m.side.value, m.price, m.quantity),
                 BookEvent(BookUpdate(AddAction, m.id, 0, 0, m.price, m.quantity, m.side, false))])
  }

  function ExecutionPrice(t: Tables, m: ItchMessage): int
    requires m.OrderExecuted? && m.id in t.orders
  {
    if m.priced then m.price else t.orders[m.id].price
  }

  function Printable(m: ItchMessage): bool
    requires m.OrderExecuted?
  {
    !m.priced || m.flag == 'Y' as int
  }

  function HandleExecute(t: Tables, lim: Limits, m: ItchMessage): Handled
    requires m.OrderExecuted?
  {
    if m.id !in t.orders || m.quantity == 0 || m.quantity > t.orders[m.id].remaining
       || ExecutionPrice(t, m) <= 0 || (m.priced && m.flag != 'Y' as int && m.flag != 'N' as int)
       || m.matchId == 0
    then Handled(t, MalformedMessage, [])
    else if m.matchId !in t.matches && |t.matches| >= lim.matches then Handled(t, Exhausted, [])
    else
      var o, price, printable := t.orders[m.id], ExecutionPrice(t, m), Printable(m);
      var first := m.matchId !in t.matches;
      var row := MatchRow(price, m.quantity, m.id, Some(o.side), printable);
      Handled(Tables(Lowered(t.orders, m.id, m.quantity), if first then t.matches[m.matchId := row] else t.matches),
              Accepted,
              (if printable && first then [Transaction(m.matchId, TradeDone, Some(o.side), price, m.quantity, m.id)]
               else [])
              + [BookEvent(BookUpdate(ExecutionAction, m.id, 0, m.matchId, price, m.quantity,
                                      Some(o.side), printable))])
  }

  function HandleCancel(t: Tables, sequence: nat, m: ItchMessage): Handled
    requires m.OrderCancel?
  {
    if m.id !in t.orders || m.quantity == 0 || m.quantity > t.orders[m.id].remaining
    then Handled(t, MalformedMessage, [])
    else
      var o := t.orders[m.id];
      Handled(t.(orders := Lowered(t.orders, m.id, m.quantity)), Accepted,
              [Transaction(sequence, Canceled, Some(o.side), o.price, m.quantity, m.id),
               BookEvent(BookUpdate(ReduceAction, m.id, 0, 0, o.price, m.quantity, Some(o.side), false))])
  }

  function HandleDelete(t: Tables, sequence: nat, m: ItchMessage): Handled
    requires m.OrderDelete?
  {
    if m.id !in t.orders then Handled(t, MalformedMessage, [])
    else
      var o := t.orders[m.id];
      Handled(t.(orders := t.orders - {m.id}), Accepted,
              [Transaction(sequence, Canceled, Some(o.side), o.price, o.remaining, m.id),
               BookEvent(BookUpdate(DeleteAction, m.id, 0, 0, o.price, o.remaining, Some(o.side), false))])
  }

  function HandleReplace(t: Tables, sequence: nat, m: ItchMessage): Handled
    requires m.OrderReplace?
  {
    if m.id !in t.orders || m.newId == 0 || m.quantity == 0 || m.price == 0 || m.newId in t.orders
    then Handled(t, MalformedMessage, [])
    else
      var o := t.orders[m.id];
      Handled(t.(orders := (t.orders - {m.id})[m.newId := Books.Order(o.side, m.price, m.quantity)]), Accepted,
              [Transaction(sequence, Canceled, Some(o.side), o.price, o.remaining, m.id),
               OrderDetail(m.newId, o.side, m.price, m.quantity),
               BookEvent(BookUpdate(ReplaceAction, m.id, m.newId, 0, m.price, m.quantity, Some(o.side), false))])
  }

  /** The row a trade message would store; a cross has no side and no order. */
  function TradeRow(m: ItchMessage): MatchRow
    requires m.NonCrossTrade? || m.CrossTrade?
  {
    if m.CrossTrade? then MatchRow(m.price, m.crossed, 0, None, true)
    else MatchRow(m.price, m.quantity, m.id, m.side, true)
  }

  function HandleTrade(t: Tables, lim: Limits, m: ItchMessage): Handled
    requires m.NonCrossTrade? || m.CrossTrade?
  {
    var row := TradeRow(m);
    if row.quantity == 0 || row.price <= 0 || (m.NonCrossTrade? && row.side == None) || m.matchId == 0
    then Handled(t, MalformedMessage, [])
    else if m.matchId in t.matches then Handled(t, Accepted, [])
    else if |t.matches| >= lim.matches then Handled(t, Exhausted, [])
    else
      Handled(t.(matches := t.matches[m.matchId := row]), Accepted,
              [BookEvent(BookUpdate(TradeAction, row.orderId, 0, m.matchId, row.price, row.quantity, row.side, true)),
               Transaction(m.matchId, TradeDone, row.side, row.price, row.quantity, row.orderId)])
  }

  function HandleBroken(t: Tables, m: ItchMessage): Handled
    requires m.BrokenTrade?
  {
    if m.matchId !in t.matches then Handled(t, UnknownBroken, [])
    else
      var row := t.matches[m.matchId];
      Handled(t.(matches := t.matches - {m.matchId}), Accepted,
              [BookEvent(BookUpdate(BustAction, row.orderId, 0, m.matchId, row.price, row.quantity,
                                    row.side, row.emitted))]
              + if row.emitted then [Transaction(m.matchId, TradeBust, row.side, row.price, row.quantity, row.orderId)]
                else [])
  }

  function Handle(t: Tables, lim: Limits, sequence: nat, m: ItchMessage): Handled {
    match m
    case AddOrder(_, _, _, _) => HandleAdd(t, lim, m)
    case OrderExecuted(_, _, _, _, _, _) => HandleExecute(t, lim, m)
    case OrderCancel(_, _) => HandleCancel(t, sequence, m)
    case OrderDelete(_) => HandleDelete(t, sequence, m)
    case OrderReplace(_, _, _, _) => HandleReplace(t, sequence, m)
    case NonCrossTrade(_, _, _, _, _) => HandleTrade(t, lim, m)
    case CrossTrade(_, _, _) => HandleTrade(t, lim, m)
    case BrokenTrade(_) => HandleBroken(t, m)
    case NotBook => Handled(t, Accepted, [])
  }

  /** The message is for this adapter's instrument. */
  predicate Mine(locator: int, m: Bytes) {
    |m| >= 11 && Locator(m) == locator
  }

  /** One call of on_message; `sequence` counts this instrument's messages, this one included. */
  function Receive(t: Tables, lim: Limits, locator: int, sequence: nat, m: Bytes): Handled {
    if !Mine(locator, m) then Handled(t, Accepted, [])
    else if !WellSizedMessage(m) then Handled(t, MalformedMessage, [])
    else Handle(t, lim, sequence, Fields(m))
  }

  // ---- Laws over any message stream ----

  /** Quantities are positive and the bounded tables are within their limits. */
  ghost predicate Fine(t: Tables, lim: Limits)
  {
    Positive(t) && |t.orders| <= lim.orders && |t.matches| <= lim.matches
  }

  /** A refused message changes no table and publishes nothing. */
  ghost predicate AllOrNothing(t: Tables, h: Handled)
  {
    h.verdict != Accepted ==> h.tables == t && h.log == []
  }

  lemma LoweredFine(orders: map<nat, Order>, id: nat, quantity: nat)
    requires id in orders && 0 < quantity <= orders[id].remaining
    ensures |Lowered(orders, id, quantity)| <= |orders|
    ensures forall x :: x in Lowered(orders, id, quantity) ==>
              x in orders && Lowered(orders, id, quantity)[x].price == orders[x].price
              && (Lowered(orders, id, quantity)[x].remaining == orders[x].remaining
                  || Lowered(orders, id, quantity)[x].remaining > 0)
  {
    Smaller(orders, id);
    if quantity < orders[id].remaining {
      assert Lowered(orders, id, quantity).Keys == orders.Keys;
    }
  }

  lemma ExecuteFine(t: Tables, lim: Limits, m: ItchMessage)
    requires Fine(t, lim) && m.OrderExecuted?
    ensures Fine(HandleExecute(t, lim, m).tables, lim) && AllOrNothing(t, HandleExecute(t, lim, m))
  {
    hide Lowered;
    if HandleExecute(t, lim, m).verdict.Accepted? {
      LoweredFine(t.orders, m.id, m.quantity);
    }
  }

  lemma CancelFine(t: Tables, lim: Limits, sequence: nat, m: ItchMessage)
    requires Fine(t, lim) && m.OrderCancel?
    ensures Fine(HandleCancel(t, sequence, m).tables, lim) && AllOrNothing(t, HandleCancel(t, sequence, m))
  {
    hide Lowered;
    if HandleCancel(t, sequence, m).verdict.Accepted? {
      LoweredFine(t.orders, m.id, m.quantity);
    }
  }

  lemma RemoveFine(t: Tables, lim: Limits, sequence: nat, m: ItchMessage)
    requires Fine(t, lim) && (m.OrderDelete? || m.OrderReplace?)
    ensures Fine(Handle(t, lim, sequence, m).tables, lim) && AllOrNothing(t, Handle(t, lim, sequence, m))
  {
    if m.id in t.orders {
      Smaller(t.orders, m.id);
    }
  }

  lemma TradeFine(t: Tables, lim: Limits, m: ItchMessage)
    requires Fine(t, lim) && (m.NonCrossTrade? || m.CrossTrade?)
    ensures Fine(HandleTrade(t, lim, m).tables, lim) && AllOrNothing(t, HandleTrade(t, lim, m))
  {
  }

  lemma BrokenFine(t: Tables, lim: Limits, m: ItchMessage)
    requires Fine(t, lim) && m.BrokenTrade?
    ensures Fine(HandleBroken(t, m).tables, lim) && AllOrNothing(t, HandleBroken(t, m))
  {
    if m.matchId in t.matches {
      Smaller(t.matches, m.matchId);
    }
  }

  lemma AddFine(t: Tables, lim: Limits, m: ItchMessage)
    requires Fine(t, lim) && m.AddOrder?
    ensures Fine(HandleAdd(t, lim, m).tables, lim) && AllOrNothing(t, HandleAdd(t, lim, m))
  {
  }

  /** Every message keeps the tables fine, and a refused one changes nothing. */
  lemma HandleFine(t: Tables, lim: Limits, sequence: nat, m: ItchMessage)
    requires Fine(t, lim)
    ensures Fine(Handle(t, lim, sequence, m).tables, lim) && AllOrNothing(t, Handle(t, lim, sequence, m))
  {
    hide HandleAdd, HandleExecute, HandleTrade, HandleBroken, Fine, Positive;
    match m {
      case AddOrder(_, _, _, _) => AddFine(t, lim, m);
      case OrderExecuted(_, _, _, _, _, _) => ExecuteFine(t, lim, m);
      case OrderCancel(_, _) => CancelFine(t, lim, sequence, m);
      case OrderDelete(_) => RemoveFine(t, lim, sequence, m);
      case OrderReplace(_, _, _, _) => RemoveFine(t, lim, sequence, m);
      case NonCrossTrade(_, _, _, _, _) => TradeFine(t, lim, m);
      case CrossTrade(_, _, _) => TradeFine(t, lim, m);
      case BrokenTrade(_) => BrokenFine(t, lim, m);
      case NotBook =>
    }
  }
}
