/**
 The meaning of an ITCH stream on one state: the abstract book, the ledger of every match ever seen,
 and the net printed volume. The adapter's own tables do not appear here.
 */
module Replicas {
  import opened Collections
  import opened Machine
  import opened Itch50
  import opened Adapter
  import opened AdapterLaws
  import opened Sums
  import B = Books

  datatype LedgerRow = LedgerRow(quantity: nat, printable: bool, busted: bool)

  datatype Replica = Replica(book: B.Book, ledger: map<nat, LedgerRow>, volume: int)

  const EMPTY_REPLICA: Replica := Replica(B.EMPTY, map[], 0)

  function Printed(row: LedgerRow): int {
    if row.printable && !row.busted then row.quantity else 0
  }

  /** Enter a match once; a known match is left alone, a busted one is refused. */
  function Enter(r: Replica, lim: Limits, k: nat, quantity: nat, printable: bool): Option<Replica> {
    if k in r.ledger then (if r.ledger[k].busted then None else Some(r))
    else if printable && r.volume + quantity > U64_MAX then None
    else if k == 0 || |r.ledger| >= lim.matches then None
    else Some(r.(ledger := r.ledger[k := LedgerRow(quantity, printable, false)],
                 volume := r.volume + if printable then quantity else 0))
  }

  function FollowAdd(r: Replica, lim: Limits, grid: seq<int>, m: ItchMessage): Option<Replica>
    requires m.AddOrder?
  {
    if m.side == None || m.quantity == 0 || m.price == 0 || m.price !in grid
       || m.id == 0 || m.id == U64_MAX || m.id in r.book.orders || |r.book.orders| >= lim.orders
    then None
    else Some(r.(book := B.Add(r.book, m.id, B.Order(m.side.value, m.price, m.quantity))))
  }

  function FollowExecute(r: Replica, lim: Limits, m: ItchMessage): Option<Replica>
    requires m.OrderExecuted?
  {
    if m.id !in r.book.orders || m.quantity == 0 || m.quantity > r.book.orders[m.id].remaining || m.matchId == 0
       || (m.priced && (m.price == 0 || (m.flag != 'Y' as int && m.flag != 'N' as int)))
    then None
    else Enter(r.(book := B.Reduce(r.book, m.id, m.quantity)), lim, m.matchId, m.quantity, Printable(m))
  }

  function FollowCancel(r: Replica, m: ItchMessage): Option<Replica>
    requires m.OrderCancel?
  {
    if m.id !in r.book.orders || m.quantity == 0 || m.quantity > r.book.orders[m.id].remaining then None
    else Some(r.(book := B.Reduce(r.book, m.id, m.quantity)))
  }

  function FollowReplace(r: Replica, grid: seq<int>, m: ItchMessage): Option<Replica>
    requires m.OrderReplace?
  {
    if m.id !in r.book.orders || m.newId == 0 || m.newId == U64_MAX || m.newId in r.book.orders
       || m.quantity == 0 || m.price == 0 || m.price !in grid
    then None
    else Some(r.(book := B.Add(B.Remove(r.book, m.id), m.newId,
                               B.Order(r.book.orders[m.id].side, m.price, m.quantity))))
  }

  function FollowTrade(r: Replica, lim: Limits, m: ItchMessage): Option<Replica>
    requires m.NonCrossTrade? || m.CrossTrade?
  {
    var row := TradeRow(m);
    if row.quantity == 0 || row.price == 0 || m.matchId == 0 || (m.NonCrossTrade? && m.side == None) then None
    else Enter(r, lim, m.matchId, row.quantity, true)
  }

  /** A broken trade leaves the book alone: neither shares nor time priority come back. */
  function FollowBroken(r: Replica, m: ItchMessage): Option<Replica>
    requires m.BrokenTrade?
  {
    if m.matchId !in r.ledger || r.ledger[m.matchId].busted then None
    else
      var row := r.ledger[m.matchId];
      Some(r.(ledger := r.ledger[m.matchId := row.(busted := true)], volume := r.volume - Printed(row)))
  }

  /** One message; None when it contradicts the state, the grid or the capacities. */
  function Follow(r: Replica, lim: Limits, grid: seq<int>, m: ItchMessage): Option<Replica> {
    match m
    case AddOrder(_, _, _, _) => FollowAdd(r, lim, grid, m)
    case OrderExecuted(_, _, _, _, _, _) => FollowExecute(r, lim, m)
    case OrderCancel(_, _) => FollowCancel(r, m)
    case OrderDelete(id) => if id in r.book.orders then Some(r.(book := B.Remove(r.book, id))) else None
    case OrderReplace(_, _, _, _) => FollowReplace(r, grid, m)
    case NonCrossTrade(_, _, _, _, _) => FollowTrade(r, lim, m)
    case CrossTrade(_, _, _) => FollowTrade(r, lim, m)
    case BrokenTrade(_) => FollowBroken(r, m)
    case NotBook => Some(r)
  }

  // ---- What the pipeline does with a published update ----

  function Update(r: Replica, lim: Limits, grid: seq<int>, u: BookUpdate): Option<Replica> {
    if u.action.BustAction? then
      if u.matchId !in r.ledger || r.ledger[u.matchId].busted then None
      else
        var row := r.ledger[u.matchId];
        Some(r.(ledger := r.ledger[u.matchId := row.(busted := true)], volume := r.volume - Printed(row)))
    else if u.quantity == 0 then None
    else match u.action
      case AddAction =>
        if u.side == None || u.id == 0 || u.id == U64_MAX || u.id in r.book.orders || u.price !in grid
           || |r.book.orders| >= lim.orders
        then None
        else Some(r.(book := B.Add(r.book, u.id, B.Order(u.side.value, u.price, u.quantity))))
      case ReduceAction =>
        if u.id !in r.book.orders || u.quantity > r.book.orders[u.id].remaining then None
        else Some(r.(book := B.Reduce(r.book, u.id, u.quantity)))
      case DeleteAction =>
        if u.id !in r.book.orders || u.quantity != r.book.orders[u.id].remaining then None
        else Some(r.(book := B.Remove(r.book, u.id)))
      case ReplaceAction =>
        if u.id !in r.book.orders || u.newId == 0 || u.newId == U64_MAX || u.newId in r.book.orders
           || u.price !in grid then None
        else Some(r.(book := B.Add(B.Remove(r.book, u.id), u.newId,
                                   B.Order(r.book.orders[u.id].side, u.price, u.quantity))))
      case ExecutionAction =>
        if u.id !in r.book.orders || u.quantity > r.book.orders[u.id].remaining then None
        else Enter(r.(book := B.Reduce(r.book, u.id, u.quantity)), lim, u.matchId, u.quantity, u.printable)
      case TradeAction => Enter(r, lim, u.matchId, u.quantity, u.printable)
      case BustAction => None
  }

  /** Apply the book events of an emission log in order. */
  function UpdateAll(r: Replica, lim: Limits, grid: seq<int>, log: seq<Emission>): Option<Replica>
    decreases |log|
  {
    if log == [] then Some(r)
    else
      var before := UpdateAll(r, lim, grid, log[..|log| - 1]);
      if before == None || !log[|log| - 1].BookEvent? then before
      else Update(before.value, lim, grid, log[|log| - 1].update)
  }

  /** The book event of a log; the adapter publishes at most one per message. */
  function Published(log: seq<Emission>): Option<BookUpdate>
    decreases |log|
  {
    if log == [] then None
    else if log[|log| - 1].BookEvent? then Some(log[|log| - 1].update)
    else Published(log[..|log| - 1])
  }

  lemma {:induction false} OneUpdate(r: Replica, lim: Limits, grid: seq<int>, log: seq<Emission>)
    requires forall i, j :: 0 <= i < j < |log| && log[i].BookEvent? ==> !log[j].BookEvent?
    ensures UpdateAll(r, lim, grid, log) == if Published(log) == None then Some(r)
                                            else Update(r, lim, grid, Published(log).value)
    ensures Published(log).Some? ==> exists i :: 0 <= i < |log| && log[i].BookEvent?
    decreases |log|
  {
    hide Update;
    if log != [] {
      OneUpdate(r, lim, grid, log[..|log| - 1]);
    }
  }

  lemma PublishedFew(log: seq<Emission>)
    ensures |log| == 1 ==> Published(log) == if log[0].BookEvent? then Some(log[0].update) else None
    ensures |log| == 2 && log[1].BookEvent? ==> Published(log) == Some(log[1].update)
    ensures |log| == 2 && !log[1].BookEvent? ==>
              Published(log) == if log[0].BookEvent? then Some(log[0].update) else None
    ensures |log| == 3 && log[2].BookEvent? ==> Published(log) == Some(log[2].update)
  {
    if |log| == 2 {
      assert log[..1] == [log[0]];
    }
  }

  lemma FewUpdates(r: Replica, lim: Limits, grid: seq<int>, log: seq<Emission>)
    requires || log == [] || (|log| == 1 && log[0].BookEvent?)
             || (|log| == 2 && (log[0].BookEvent? <==> !log[1].BookEvent?))
             || (|log| == 3 && !log[0].BookEvent? && !log[1].BookEvent? && log[2].BookEvent?)
    ensures log == [] ==> UpdateAll(r, lim, grid, log) == Some(r)
    ensures |log| == 1 ==> UpdateAll(r, lim, grid, log) == Update(r, lim, grid, log[0].update)
    ensures |log| == 2 ==>
              var update := if log[0].BookEvent? then log[0].update else log[1].update;
              UpdateAll(r, lim, grid, log) == Update(r, lim, grid, update)
    ensures |log| == 3 ==> UpdateAll(r, lim, grid, log) == Update(r, lim, grid, log[2].update)
  {
    hide Update;
    OneUpdate(r, lim, grid, log);
    PublishedFew(log);
  }

  // ---- Adapter tables and replica in lock-step ----

  /** Both sides hold the same orders; the adapter's matches are the ledger's rows that are not busted. */
  ghost predicate Agree(t: Tables, r: Replica)
  {
    && t.orders == r.book.orders
    && (forall k :: k in t.matches <==> k in r.ledger && !r.ledger[k].busted)
    && (forall k :: k in t.matches ==>
          t.matches[k].quantity == r.ledger[k].quantity && t.matches[k].emitted == r.ledger[k].printable)
    && r.volume == Sum(t.matches, EmittedQuantity)
  }

  /** The message is refused by the adapter or by the book exactly when the stream semantics refuses it. */
  ghost predicate InStep(h: Handled, r: Replica, lim: Limits, grid: seq<int>, followed: Option<Replica>)
  {
    && (followed == None <==> !h.verdict.Accepted? || UpdateAll(r, lim, grid, h.log) == None)
    && (followed.Some? ==> UpdateAll(r, lim, grid, h.log) == followed && Agree(h.tables, followed.value))
  }

  lemma LoweredIsReduced(b: B.Book, id: nat, quantity: nat)
    requires id in b.orders && 0 < quantity <= b.orders[id].remaining
    ensures B.Reduce(b, id, quantity).orders == Lowered(b.orders, id, quantity)
  {
  }

  lemma LedgerBounds(t: Tables, r: Replica)
    requires Agree(t, r)
    ensures |t.matches| <= |r.ledger|
  {
    CardinalityMonotone(t.matches.Keys, r.ledger.Keys);
  }

  lemma AddInStep(t: Tables, r: Replica, lim: Limits, grid: seq<int>, m: ItchMessage)
    requires Agree(t, r) && Fine(t, lim) && m.AddOrder?
    ensures InStep(HandleAdd(t, lim, m), r, lim, grid, FollowAdd(r, lim, grid, m))
  {
    hide Sum, UpdateAll, B.Put, B.Queue;
    FewUpdates(r, lim, grid, HandleAdd(t, lim, m).log);
  }

  lemma ExecuteInStep(t: Tables, r: Replica, lim: Limits, grid: seq<int>, m: ItchMessage)
    requires Agree(t, r) && Fine(t, lim) && m.OrderExecuted? && |r.ledger| <= lim.matches
    ensures InStep(HandleExecute(t, lim, m), r, lim, grid, FollowExecute(r, lim, m))
  {
    hide Sum, UpdateAll, B.Reduce, Lowered;
    var h := HandleExecute(t, lim, m);
    FewUpdates(r, lim, grid, h.log);
    LedgerBounds(t, r);
    if m.id in t.orders && 0 < m.quantity <= t.orders[m.id].remaining {
      LoweredIsReduced(r.book, m.id, m.quantity);
      if m.matchId in h.tables.matches {
        SumPut(t.matches, EmittedQuantity, m.matchId, h.tables.matches[m.matchId]);
      }
    }
  }

  lemma CancelInStep(t: Tables, r: Replica, lim: Limits, grid: seq<int>, sequence: nat, m: ItchMessage)
    requires Agree(t, r) && Fine(t, lim) && m.OrderCancel?
    ensures InStep(HandleCancel(t, sequence, m), r, lim, grid, FollowCancel(r, m))
  {
    hide Sum, UpdateAll, B.Reduce, Lowered;
    FewUpdates(r, lim, grid, HandleCancel(t, sequence, m).log);
    if m.id in t.orders && 0 < m.quantity <= t.orders[m.id].remaining {
      LoweredIsReduced(r.book, m.id, m.quantity);
    }
  }

  lemma OrdersAfter(b: B.Book, id: nat, n: nat, o: B.Order)
    requires id in b.orders
    ensures B.Remove(b, id).orders == b.orders - {id}
    ensures B.Add(B.Remove(b, id), n, o).orders == (b.orders - {id})[n := o]
  {
  }

  lemma DeleteInStep(t: Tables, r: Replica, lim: Limits, grid: seq<int>, sequence: nat, m: ItchMessage)
    requires Agree(t, r) && Fine(t, lim) && m.OrderDelete?
    ensures InStep(HandleDelete(t, sequence, m), r, lim, grid, Follow(r, lim, grid, m))
  {
    hide Sum, UpdateAll, B.Remove;
    FewUpdates(r, lim, grid, HandleDelete(t, sequence, m).log);
    if m.id in t.orders {
      OrdersAfter(r.book, m.id, 0, t.orders[m.id]);
    }
  }

  lemma ReplaceInStep(t: Tables, r: Replica, lim: Limits, grid: seq<int>, sequence: nat, m: ItchMessage)
    requires Agree(t, r) && Fine(t, lim) && m.OrderReplace?
    ensures InStep(HandleReplace(t, sequence, m), r, lim, grid, FollowReplace(r, grid, m))
  {
    hide Sum, UpdateAll, B.Remove, B.Add, Fine;
    FewUpdates(r, lim, grid, HandleReplace(t, sequence, m).log);
    if m.id in t.orders {
      OrdersAfter(r.book, m.id, m.newId, B.Order(t.orders[m.id].side, m.price, m.quantity));
    }
  }

  lemma TradeInStep(t: Tables, r: Replica, lim: Limits, grid: seq<int>, m: ItchMessage)
    requires Agree(t, r) && Fine(t, lim) && (m.NonCrossTrade? || m.CrossTrade?) && |r.ledger| <= lim.matches
    ensures InStep(HandleTrade(t, lim, m), r, lim, grid, FollowTrade(r, lim, m))
  {
    hide Sum, UpdateAll;
    FewUpdates(r, lim, grid, HandleTrade(t, lim, m).log);
    LedgerBounds(t, r);
    SumPut(t.matches, EmittedQuantity, m.matchId, TradeRow(m));
  }

  lemma BustedAgree(t: Tables, r: Replica, k: nat)
    requires Agree(t, r) && k in t.matches
    ensures var row := r.ledger[k];
            Agree(t.(matches := t.matches - {k}),
                  r.(ledger := r.ledger[k := row.(busted := true)], volume := r.volume - Printed(row)))
  {
    SumWithout(t.matches, EmittedQuantity, k);
  }

  lemma BrokenInStep(t: Tables, r: Replica, lim: Limits, grid: seq<int>, m: ItchMessage)
    requires Agree(t, r) && Fine(t, lim) && m.BrokenTrade?
    ensures InStep(HandleBroken(t, m), r, lim, grid, FollowBroken(r, m))
  {
    hide Sum, UpdateAll, Fine;
    FewUpdates(r, lim, grid, HandleBroken(t, m).log);
    if m.matchId in t.matches {
      SumWithout(t.matches, EmittedQuantity, m.matchId);
      BustedAgree(t, r, m.matchId);
    }
  }

  /**
   Lock-step: from agreeing states the adapter and the book together refuse a message exactly when
   the stream semantics does, and otherwise they reach what it says and agree again.
   */
  lemma HandleInStep(t: Tables, r: Replica, lim: Limits, grid: seq<int>, sequence: nat, m: ItchMessage)
    requires Agree(t, r) && Fine(t, lim) && |r.ledger| <= lim.matches
    ensures InStep(Handle(t, lim, sequence, m), r, lim, grid, Follow(r, lim, grid, m))
  {
    hide Agree, Fine, InStep, HandleAdd, HandleExecute, HandleCancel, HandleDelete, HandleReplace, HandleTrade,
         HandleBroken;
    match m {
      case AddOrder(_, _, _, _) => AddInStep(t, r, lim, grid, m);
      case OrderExecuted(_, _, _, _, _, _) => ExecuteInStep(t, r, lim, grid, m);
      case OrderCancel(_, _) => CancelInStep(t, r, lim, grid, sequence, m);
      case OrderDelete(_) => DeleteInStep(t, r, lim, grid, sequence, m);
      case OrderReplace(_, _, _, _) => ReplaceInStep(t, r, lim, grid, sequence, m);
      case NonCrossTrade(_, _, _, _, _) => TradeInStep(t, r, lim, grid, m);
      case CrossTrade(_, _, _) => TradeInStep(t, r, lim, grid, m);
      case BrokenTrade(_) => BrokenInStep(t, r, lim, grid, m);
      case NotBook => NothingInStep(t, r, lim, grid);
    }
  }

  lemma NothingInStep(t: Tables, r: Replica, lim: Limits, grid: seq<int>)
    requires Agree(t, r)
    ensures InStep(Handled(t, Accepted, []), r, lim, grid, Some(r))
  {
  }
}
