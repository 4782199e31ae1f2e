/** What the stream semantics guarantees about every book it reaches. */
module ReplicaLaws {
  import opened Collections
  import opened Machine
  import opened MoldUdp64
  import opened Itch50
  import opened Adapter
  import opened Replicas
  import opened Pipelines
  import B = Books
  import L = BookLaws
  import DenseBooks

  /** A well-formed book on the grid, within capacity, of 32-bit quantities. */
  ghost predicate Feasible(b: B.Book, s: Setting)
  {
    && L.WF(b) && |b.orders| <= s.lim.orders
    && forall id :: id in b.orders ==> b.orders[id].price in s.grid && b.orders[id].remaining <= U32_MAX
  }

  lemma ReduceFeasible(b: B.Book, s: Setting, id: nat, quantity: nat)
    requires Feasible(b, s) && id in b.orders && 0 < quantity <= b.orders[id].remaining
    ensures Feasible(B.Reduce(b, id, quantity), s)
  {
    if quantity == b.orders[id].remaining {
      RemoveFeasible(b, s, id);
    } else {
      L.ShrinkKeeps(b, id, quantity);
      assert B.Shrink(b, id, quantity).orders.Keys == b.orders.Keys;
    }
  }

  lemma RemoveFeasible(b: B.Book, s: Setting, id: nat)
    requires Feasible(b, s) && id in b.orders
    ensures Feasible(B.Remove(b, id), s) && |B.Remove(b, id).orders| < s.lim.orders
  {
    L.RemoveKeeps(b, id);
    Smaller(b.orders, id);
  }

  lemma AddFeasible(b: B.Book, s: Setting, id: nat, o: B.Order)
    requires Feasible(b, s) && |b.orders| < s.lim.orders && id !in b.orders
    requires 0 < o.remaining <= U32_MAX && o.price in s.grid
    ensures Feasible(B.Add(b, id, o), s)
  {
    L.AddKeeps(b, id, o);
  }

  lemma MeaningFeasible(r: Replica, s: Setting, m: Bytes)
    requires Feasible(r.book, s) && Meaning(r, s, m).Some?
    ensures Feasible(Meaning(r, s, m).value.book, s)
  {
    hide Feasible, B.Add, B.Remove, B.Reduce, Enter, Fields;
    WithinLimits(r.book, s);
    if Locator(m) == s.locator {
      var f := Fields(m);
      match f {
        case AddOrder(id, side, q, price) => AddFeasible(r.book, s, id, B.Order(side.value, price, q));
        case OrderExecuted(id, q, k, _, _, _) =>
          ReduceFeasible(r.book, s, id, q);
          EnterKeepsBook(r.(book := B.Reduce(r.book, id, q)), s.lim, k, q, Printable(f));
        case OrderCancel(id, q) => ReduceFeasible(r.book, s, id, q);
        case OrderDelete(id) => RemoveFeasible(r.book, s, id);
        case OrderReplace(id, n, q, price) =>
          RemoveFeasible(r.book, s, id);
          Removed(r.book, id);
          AddFeasible(B.Remove(r.book, id), s, n, B.Order(r.book.orders[id].side, price, q));
        case NonCrossTrade(_, _, _, _, k) => EnterKeepsBook(r, s.lim, k, TradeRow(f).quantity, true);
        case CrossTrade(_, _, k) => EnterKeepsBook(r, s.lim, k, TradeRow(f).quantity, true);
        case BrokenTrade(_) =>
        case NotBook =>
      }
    }
  }

  lemma WithinLimits(b: B.Book, s: Setting)
    requires Feasible(b, s)
    ensures |b.orders| <= s.lim.orders
  {
  }

  lemma Removed(b: B.Book, id: nat)
    requires id in b.orders
    ensures B.Remove(b, id).orders == b.orders - {id}
  {
  }

  lemma EnterKeepsBook(r: Replica, lim: Limits, k: nat, quantity: nat, printable: bool)
    ensures Enter(r, lim, k, quantity, printable).Some? ==> Enter(r, lim, k, quantity, printable).value.book == r.book
  {
  }

  /** Every book an accepted stream reaches is well-formed, on the grid, within capacity, of 32-bit quantities. */
  lemma {:induction false} ReplayFeasible(s: Setting, messages: seq<Bytes>)
    requires Replay(s, messages).Some?
    ensures Feasible(Replay(s, messages).value.book, s)
    decreases |messages|
  {
    hide Meaning, B.Add;
    if messages != [] {
      ReplayFeasible(s, messages[..|messages| - 1]);
      MeaningFeasible(Replay(s, messages[..|messages| - 1]).value, s, messages[|messages| - 1]);
    }
  }

  lemma {:induction false} SumBound(b: B.Book, ids: seq<nat>, bound: nat)
    requires forall id :: id in b.orders ==> b.orders[id].remaining <= bound
    ensures DenseBooks.QueueTotal(b, ids) <= |ids| * bound
  {
    if ids != [] {
      SumBound(b, ids[..|ids| - 1], bound);
      assert |ids| * bound == (|ids| - 1) * bound + bound;
    }
  }

  lemma {:induction false} DistinctCount(q: seq<nat>, keys: set<nat>)
    requires Distinct(q) && forall id :: id in q ==> id in keys
    ensures |q| <= |keys|
  {
    if q != [] {
      var last := q[|q| - 1];
      assert q[..|q| - 1] <= q && forall id :: id in q[..|q| - 1] ==> id in q;
      DistinctCount(q[..|q| - 1], keys - {last});
    }
  }

  /** With fewer than 2^32 orders the 64-bit level totals of the feed never wrap. */
  lemma LevelTotalsFit(b: B.Book, s: Setting, side: B.Side, price: int)
    requires Feasible(b, s) && s.lim.orders <= U32_MAX
    ensures DenseBooks.QueueTotal(b, B.Queue(b, side, price)) <= U64_MAX
  {
    var q := B.Queue(b, side, price);
    assert L.LevelOK(b, side, price);
    DistinctCount(q, b.orders.Keys);
    SumBound(b, q, U32_MAX);
  }

  lemma PipelineFeasible(p: UftOrderBookPipeline)
    requires p.Valid() && !p.state.Faulted?
    ensures p.book.Valid() && Feasible(p.book.view.book, p.Config()) && p.Config().lim.orders <= U32_MAX
  {
    hide Feasible;
    p.VolumeIsNetTraded();
    ReplayFeasible(p.Config(), p.applied);
    BookFixed(p.book);
  }

  lemma BookFixed(b: DenseBooks.DensePriceOrderBook)
    requires b.Valid()
    ensures b.nodes.Length <= U32_MAX
  {
  }

  /** In a pipeline that is not faulted the 64-bit level quantity is the exact sum over the level's queue. */
  method ExactLevelQuantity(p: UftOrderBookPipeline, side: B.Side, price: int) returns (total: nat)
    requires p.Valid() && !p.state.Faulted?
    ensures total == DenseBooks.QueueTotal(p.Model().book, B.Queue(p.Model().book, side, price))
  {
    hide UftOrderBookPipeline.Valid, DenseBooks.DensePriceOrderBook.Valid, Feasible;
    PipelineFeasible(p);
    total := p.book.LevelQuantity(side, price);
    LevelTotalsFit(p.book.view.book, p.Config(), side, price);
  }

  /** An add or a replace whose price reaches the best opposite price of the book it is added to. */
  ghost predicate Crossing(b: B.Book, m: ItchMessage)
  {
    match m
    case AddOrder(_, side, _, price) => side.Some? && L.Reaches(b, side.value, price)
    case OrderReplace(id, _, _, price) => id in b.orders && L.Reaches(B.Remove(b, id), b.orders[id].side, price)
    case _ => false
  }

  /**
   The feed matches nothing locally, so its book can become crossed; this says exactly by which
   messages, and it can be checked before the message is applied.
   */
  lemma FollowCrossesIff(r: Replica, lim: Limits, grid: seq<int>, m: ItchMessage)
    requires L.WF(r.book) && L.Uncrossed(r.book) && Follow(r, lim, grid, m).Some?
    ensures L.Uncrossed(Follow(r, lim, grid, m).value.book) <==> !Crossing(r.book, m)
  {
    hide L.WF, L.Uncrossed, L.Reaches, B.Add, B.Remove, B.Reduce, Enter;
    match m {
      case AddOrder(id, side, q, price) => L.AddUncrossedIff(r.book, id, B.Order(side.value, price, q));
      case OrderExecuted(id, q, k, _, _, _) =>
        L.ReduceKeepsUncrossed(r.book, id, q);
        EnterKeepsBook(r.(book := B.Reduce(r.book, id, q)), lim, k, q, Printable(m));
      case OrderCancel(id, q) => L.ReduceKeepsUncrossed(r.book, id, q);
      case OrderDelete(id) => L.RemoveKeepsUncrossed(r.book, id);
      case OrderReplace(id, n, q, price) =>
        L.RemoveKeepsUncrossed(r.book, id);
        L.AddUncrossedIff(B.Remove(r.book, id), n, B.Order(r.book.orders[id].side, price, q));
      case NonCrossTrade(_, _, _, _, k) => EnterKeepsBook(r, lim, k, TradeRow(m).quantity, true);
      case CrossTrade(_, _, k) => EnterKeepsBook(r, lim, k, TradeRow(m).quantity, true);
      case BrokenTrade(_) =>
      case NotBook =>
    }
  }

  /** Every message of a stream, met on its way through the book. */
  ghost predicate NeverCrossing(s: Setting, messages: seq<Bytes>)
  {
    forall i ::
      && 0 <= i < |messages| && Replay(s, messages[..i]).Some?
      && WellSizedMessage(messages[i]) && Locator(messages[i]) == s.locator ==>
      !Crossing(Replay(s, messages[..i]).value.book, Fields(messages[i]))
  }

  /** A stream without crossing messages never leaves a crossed book. */
  lemma {:induction false} ReplayUncrossed(s: Setting, messages: seq<Bytes>)
    requires Replay(s, messages).Some? && NeverCrossing(s, messages)
    ensures L.Uncrossed(Replay(s, messages).value.book)
    decreases |messages|
  {
    hide L.Uncrossed, Crossing, Follow, Fields;
    var n := |messages| - 1;
    if messages == [] {
      EmptyUncrossed();
    } else {
      forall i | 0 <= i < n
        ensures messages[..n][..i] == messages[..i]
      {
      }
      ReplayUncrossed(s, messages[..n]);
      ReplayFeasible(s, messages[..n]);
      if Locator(messages[n]) == s.locator {
        FollowCrossesIff(Replay(s, messages[..n]).value, s.lim, s.grid, Fields(messages[n]));
      }
    }
  }

  lemma EmptyUncrossed()
    ensures L.Uncrossed(B.EMPTY)
  {
  }

  /** The feed's book may be crossed: nothing is matched locally. */
  lemma FeedMayCross(lim: Limits, grid: seq<int>)
    requires lim.orders >= 2 && 10 in grid && 20 in grid
    ensures var bid, ask := AddOrder(1, Some(B.Buy), 5, 20), AddOrder(2, Some(B.Sell), 5, 10);
            var r1 := Follow(EMPTY_REPLICA, lim, grid, bid);
            && r1.Some? && var r2 := Follow(r1.value, lim, grid, ask);
               r2.Some? && !L.Uncrossed(r2.value.book)
  {
    var bid, ask := AddOrder(1, Some(B.Buy), 5, 20), AddOrder(2, Some(B.Sell), 5, 10);
    var b := Follow(Follow(EMPTY_REPLICA, lim, grid, bid).value, lim, grid, ask).value.book;
    assert 20 in b.bids && 10 in b.asks;
  }
}
