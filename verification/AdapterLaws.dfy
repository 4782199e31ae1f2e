/** Conservation of shares and alternation of trades and busts, over every message stream. */
module AdapterLaws {
  import opened MoldUdp64
  import opened Itch50
  import opened Adapter
  import opened Sums

  // ---- Measures of an emission log ----

  ghost function Weigh(log: seq<Emission>, weight: Emission -> int): int {
    if log == [] then 0 else Weigh(log[..|log| - 1], weight) + weight(log[|log| - 1])
  }

  lemma {:induction false} WeighJoin(a: seq<Emission>, b: seq<Emission>, weight: Emission -> int)
    ensures Weigh(a + b, weight) == Weigh(a, weight) + Weigh(b, weight)
  {
    if b == [] {
      assert a + b == a;
    } else {
      assert (a + b)[..|a + b| - 1] == a + b[..|b| - 1];
      WeighJoin(a, b[..|b| - 1], weight);
    }
  }

  lemma WeighFew(log: seq<Emission>, weight: Emission -> int)
    ensures log == [] ==> Weigh(log, weight) == 0
    ensures |log| == 1 ==> Weigh(log, weight) == weight(log[0])
    ensures |log| == 2 ==> Weigh(log, weight) == weight(log[0]) + weight(log[1])
    ensures |log| == 3 ==> Weigh(log, weight) == weight(log[0]) + weight(log[1]) + weight(log[2])
  {
    if |log| == 3 {
      assert log[..2][..1] == log[..1];
    }
  }

  /** Shares opened by an order detail, less those canceled or executed. */
  function Opened(e: Emission): int {
    match e
    case OrderDetail(_, _, _, q) => q
    case Transaction(_, kind, _, _, q, _) => if kind.Canceled? then 0 - q else 0
    case BookEvent(u) => if u.action.ExecutionAction? then 0 - u.quantity else 0
  }

  /** One for a published trade of this match, minus one for its bust. */
  function Alternates(k: nat): Emission -> int {
    (e: Emission) =>
      if e.Transaction? && e.transaction == k then
        (if e.kind.TradeDone? then 1 else if e.kind.TradeBust? then -1 else 0)
      else 0
  }

  /** Published traded quantity, net of busts. */
  function NetTraded(e: Emission): int {
    if e.Transaction? && e.kind.TradeDone? then e.quantity
    else if e.Transaction? && e.kind.TradeBust? then 0 - e.quantity else 0
  }

  function Remaining(o: Order): int {
    o.remaining
  }

  function EmittedQuantity(row: MatchRow): int {
    if row.emitted then row.quantity else 0
  }

  predicate StoredAsEmitted(t: Tables, k: nat) {
    k in t.matches && t.matches[k].emitted
  }

  lemma LoweredSum(orders: map<nat, Order>, id: nat, quantity: nat)
    requires id in orders && quantity <= orders[id].remaining
    ensures Sum(Lowered(orders, id, quantity), Remaining) == Sum(orders, Remaining) - quantity
  {
    if quantity == orders[id].remaining {
      SumWithout(orders, Remaining, id);
    } else {
      SumPut(orders, Remaining, id, orders[id].(remaining := orders[id].remaining - quantity));
    }
  }

  /** What the message opened is what it added to the live shares. */
  ghost predicate Balanced(t: Tables, h: Handled)
  {
    Sum(h.tables.orders, Remaining) == Sum(t.orders, Remaining) + Weigh(h.log, Opened)
  }

  lemma AddBalanced(t: Tables, lim: Limits, m: ItchMessage)
    requires m.AddOrder?
    ensures Balanced(t, HandleAdd(t, lim, m))
  {
    hide Sum, Weigh;
    var h := HandleAdd(t, lim, m);
    WeighFew(h.log, Opened);
    if h.verdict.Accepted? {
      SumPut(t.orders, Remaining, m.id, h.tables.orders[m.id]);
    }
  }

  lemma ExecuteBalanced(t: Tables, lim: Limits, m: ItchMessage)
    requires m.OrderExecuted?
    ensures Balanced(t, HandleExecute(t, lim, m))
  {
    hide Sum, Lowered, Weigh;
    var h := HandleExecute(t, lim, m);
    WeighFew(h.log, Opened);
    if h.verdict.Accepted? {
      LoweredSum(t.orders, m.id, m.quantity);
    }
  }

  lemma CancelBalanced(t: Tables, sequence: nat, m: ItchMessage)
    requires m.OrderCancel?
    ensures Balanced(t, HandleCancel(t, sequence, m))
  {
    hide Sum, Lowered, Weigh;
    var h := HandleCancel(t, sequence, m);
    WeighFew(h.log, Opened);
    if h.verdict.Accepted? {
      LoweredSum(t.orders, m.id, m.quantity);
    }
  }

  lemma DeleteBalanced(t: Tables, sequence: nat, m: ItchMessage)
    requires m.OrderDelete?
    ensures Balanced(t, HandleDelete(t, sequence, m))
  {
    hide Sum, Weigh;
    var h := HandleDelete(t, sequence, m);
    WeighFew(h.log, Opened);
    if h.verdict.Accepted? {
      SumWithout(t.orders, Remaining, m.id);
    }
  }

  lemma ReplaceBalanced(t: Tables, sequence: nat, m: ItchMessage)
    requires m.OrderReplace?
    ensures Balanced(t, HandleReplace(t, sequence, m))
  {
    hide Sum, Weigh;
    var h := HandleReplace(t, sequence, m);
    WeighFew(h.log, Opened);
    if h.verdict.Accepted? {
      SumWithout(t.orders, Remaining, m.id);
      SumPut(t.orders - {m.id}, Remaining, m.newId, h.tables.orders[m.newId]);
    }
  }

  lemma MatchBalanced(t: Tables, lim: Limits, m: ItchMessage)
    ensures m.NonCrossTrade? || m.CrossTrade? ==> Balanced(t, HandleTrade(t, lim, m))
    ensures m.BrokenTrade? ==> Balanced(t, HandleBroken(t, m))
    ensures Balanced(t, Handled(t, Accepted, []))
  {
    hide Sum, Weigh;
    WeighFew([], Opened);
    if m.NonCrossTrade? || m.CrossTrade? {
      WeighFew(HandleTrade(t, lim, m).log, Opened);
    } else if m.BrokenTrade? {
      WeighFew(HandleBroken(t, m).log, Opened);
    }
  }

  lemma HandleBalanced(t: Tables, lim: Limits, sequence: nat, m: ItchMessage)
    ensures Balanced(t, Handle(t, lim, sequence, m))
  {
    hide Balanced, HandleAdd, HandleExecute, HandleCancel, HandleDelete, HandleReplace, HandleTrade, HandleBroken;
    MatchBalanced(t, lim, m);
    match m {
      case AddOrder(_, _, _, _) => AddBalanced(t, lim, m);
      case OrderExecuted(_, _, _, _, _, _) => ExecuteBalanced(t, lim, m);
      case OrderCancel(_, _) => CancelBalanced(t, sequence, m);
      case OrderDelete(_) => DeleteBalanced(t, sequence, m);
      case OrderReplace(_, _, _, _) => ReplaceBalanced(t, sequence, m);
      case _ =>
    }
  }

  /** What the message published about match k is the change in whether k is stored as emitted. */
  ghost predicate Alternated(t: Tables, h: Handled, k: nat)
  {
    Weigh(h.log, Alternates(k)) ==
    (if StoredAsEmitted(h.tables, k) then 1 else 0) - (if StoredAsEmitted(t, k) then 1 else 0)
  }

  lemma OrderAlternated(t: Tables, lim: Limits, sequence: nat, m: ItchMessage, k: nat)
    ensures m.AddOrder? ==> Alternated(t, HandleAdd(t, lim, m), k)
    ensures m.OrderCancel? ==> Alternated(t, HandleCancel(t, sequence, m), k)
    ensures m.OrderDelete? ==> Alternated(t, HandleDelete(t, sequence, m), k)
    ensures m.OrderReplace? ==> Alternated(t, HandleReplace(t, sequence, m), k)
    ensures Alternated(t, Handled(t, Accepted, []), k)
  {
    hide Lowered, Weigh;
    WeighFew([], Alternates(k));
    if m.AddOrder? {
      WeighFew(HandleAdd(t, lim, m).log, Alternates(k));
    } else if m.OrderCancel? {
      WeighFew(HandleCancel(t, sequence, m).log, Alternates(k));
    } else if m.OrderDelete? {
      WeighFew(HandleDelete(t, sequence, m).log, Alternates(k));
    } else if m.OrderReplace? {
      WeighFew(HandleReplace(t, sequence, m).log, Alternates(k));
    }
  }

  lemma ExecuteAlternated(t: Tables, lim: Limits, m: ItchMessage, k: nat)
    requires m.OrderExecuted?
    ensures Alternated(t, HandleExecute(t, lim, m), k)
  {
    hide Lowered, Weigh;
    WeighFew(HandleExecute(t, lim, m).log, Alternates(k));
  }

  lemma TradeAlternated(t: Tables, lim: Limits, m: ItchMessage, k: nat)
    requires m.NonCrossTrade? || m.CrossTrade?
    ensures Alternated(t, HandleTrade(t, lim, m), k)
  {
    hide Weigh;
    WeighFew(HandleTrade(t, lim, m).log, Alternates(k));
  }

  lemma BrokenAlternated(t: Tables, m: ItchMessage, k: nat)
    requires m.BrokenTrade?
    ensures Alternated(t, HandleBroken(t, m), k)
  {
    hide Weigh;
    WeighFew(HandleBroken(t, m).log, Alternates(k));
  }

  lemma HandleAlternated(t: Tables, lim: Limits, sequence: nat, m: ItchMessage, k: nat)
    ensures Alternated(t, Handle(t, lim, sequence, m), k)
  {
    hide Alternated, HandleAdd, HandleExecute, HandleCancel, HandleDelete, HandleReplace, HandleTrade, HandleBroken;
    OrderAlternated(t, lim, sequence, m, k);
    match m {
      case OrderExecuted(_, _, _, _, _, _) => ExecuteAlternated(t, lim, m, k);
      case NonCrossTrade(_, _, _, _, _) => TradeAlternated(t, lim, m, k);
      case CrossTrade(_, _, _) => TradeAlternated(t, lim, m, k);
      case BrokenTrade(_) => BrokenAlternated(t, m, k);
      case _ =>
    }
  }

  /** The net quantity the message published is what it added to the emitted matches. */
  ghost predicate Netted(t: Tables, h: Handled)
  {
    Weigh(h.log, NetTraded) == Sum(h.tables.matches, EmittedQuantity) - Sum(t.matches, EmittedQuantity)
  }

  lemma ExecuteNetted(t: Tables, lim: Limits, m: ItchMessage)
    requires m.OrderExecuted?
    ensures Netted(t, HandleExecute(t, lim, m))
  {
    hide Sum, Lowered, Weigh;
    var h := HandleExecute(t, lim, m);
    WeighFew(h.log, NetTraded);
    if m.matchId in h.tables.matches {
      SumPut(t.matches, EmittedQuantity, m.matchId, h.tables.matches[m.matchId]);
    }
  }

  lemma TradeNetted(t: Tables, lim: Limits, m: ItchMessage)
    requires m.NonCrossTrade? || m.CrossTrade?
    ensures Netted(t, HandleTrade(t, lim, m))
  {
    hide Sum, Weigh;
    WeighFew(HandleTrade(t, lim, m).log, NetTraded);
    SumPut(t.matches, EmittedQuantity, m.matchId, TradeRow(m));
  }

  lemma BrokenNetted(t: Tables, m: ItchMessage)
    requires m.BrokenTrade?
    ensures Netted(t, HandleBroken(t, m))
  {
    hide Sum, Weigh;
    WeighFew(HandleBroken(t, m).log, NetTraded);
    if m.matchId in t.matches {
      SumWithout(t.matches, EmittedQuantity, m.matchId);
    }
  }

  lemma HandleNetted(t: Tables, lim: Limits, sequence: nat, m: ItchMessage)
    ensures Netted(t, Handle(t, lim, sequence, m))
  {
    hide Sum, Lowered, Weigh;
    match m {
      case OrderExecuted(_, _, _, _, _, _) => ExecuteNetted(t, lim, m);
      case NonCrossTrade(_, _, _, _, _) => TradeNetted(t, lim, m);
      case CrossTrade(_, _, _) => TradeNetted(t, lim, m);
      case BrokenTrade(_) => BrokenNetted(t, m);
      case _ => WeighFew(Handle(t, lim, sequence, m).log, NetTraded);
    }
  }

  // ---- Streams ----

  datatype Streamed = Streamed(tables: Tables, sequence: nat, log: seq<Emission>)

  /** Feed a list of messages to an adapter. */
  ghost function Stream(s: Streamed, lim: Limits, locator: int, messages: seq<Bytes>): Streamed
    decreases |messages|
  {
    if messages == [] then s else
      var before, m := Stream(s, lim, locator, messages[..|messages| - 1]), messages[|messages| - 1];
      var sequence := if Mine(locator, m) then before.sequence + 1 else before.sequence;
      var h := Receive(before.tables, lim, locator, sequence, m);
      Streamed(h.tables, sequence, before.log + h.log)
  }

  const FRESH: Streamed := Streamed(Tables(map[], map[]), 0, [])

  /**
   Over any stream: shares opened less shares withdrawn or executed are the live shares, stored
   quantities stay positive and within the table limits, each match's trades and busts alternate,
   and the published net traded quantity is what the emitted matches still stored add up to.
   */
  lemma {:induction false} StreamConserves(lim: Limits, locator: int, messages: seq<Bytes>)
    ensures var s := Stream(FRESH, lim, locator, messages);
            && Fine(s.tables, lim)
            && Weigh(s.log, Opened) == Sum(s.tables.orders, Remaining)
            && Weigh(s.log, NetTraded) == Sum(s.tables.matches, EmittedQuantity)
            && forall k :: Weigh(s.log, Alternates(k)) == if StoredAsEmitted(s.tables, k) then 1 else 0
    decreases |messages|
  {
    hide Sum, Handle, WellSizedMessage, Fields;
    if messages != [] {
      StreamConserves(lim, locator, messages[..|messages| - 1]);
      var before, m := Stream(FRESH, lim, locator, messages[..|messages| - 1]), messages[|messages| - 1];
      var sequence := if Mine(locator, m) then before.sequence + 1 else before.sequence;
      var h := Receive(before.tables, lim, locator, sequence, m);
      WeighJoin(before.log, h.log, Opened);
      WeighJoin(before.log, h.log, NetTraded);
      if Mine(locator, m) && WellSizedMessage(m) {
        HandleFine(before.tables, lim, sequence, Fields(m));
        HandleBalanced(before.tables, lim, sequence, Fields(m));
        HandleNetted(before.tables, lim, sequence, Fields(m));
      }
      forall k
        ensures Weigh(before.log + h.log, Alternates(k)) == if StoredAsEmitted(h.tables, k) then 1 else 0
      {
        WeighJoin(before.log, h.log, Alternates(k));
        if Mine(locator, m) && WellSizedMessage(m) {
          HandleAlternated(before.tables, lim, sequence, Fields(m), k);
        }
      }
    } else {
      EmptySums();
    }
  }

  lemma EmptySums()
    ensures Sum<Order>(map[], Remaining) == 0 && Sum<MatchRow>(map[], EmittedQuantity) == 0
  {
  }
}
