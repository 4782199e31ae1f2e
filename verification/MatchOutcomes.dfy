/**
 What a matching engine owes its users, in plain prices and quantities: limits are respected, matching
 stops only when it must, and what is left of an incoming order is exactly what was not traded.
 */
module MatchOutcomes {
  import opened Collections
  import opened Machine
  import opened Books
  import opened BookLaws

  // ---- Prices ----

  /** Something is left of the taker only when the other side is empty or, for a limit order, out of reach. */
  lemma StopsOnlyWhenItMust(b: Book, t: Taker, remaining: nat)
    requires WF(b)
    ensures var m := Match(b, t, remaining);
            && (m.remaining > 0 && t.side == Buy ==>
                  m.book.asks == map[] || (t.kind == Limit && forall p :: p in m.book.asks ==> t.price < p))
            && (m.remaining > 0 && t.side == Sell ==>
                  m.book.bids == map[] || (t.kind == Limit && forall p :: p in m.book.bids ==> p < t.price))
  {
    MatchKeeps(b, t, remaining);
  }

  /** The best price is the highest bid and the lowest ask. */
  lemma BestIsExtreme(b: Book)
    ensures Best(b, Buy) == None <==> b.bids == map[]
    ensures Best(b, Sell) == None <==> b.asks == map[]
    ensures Best(b, Buy).Some? ==>
              var p := Best(b, Buy).value; p in b.bids && forall q :: q in b.bids ==> q <= p
    ensures Best(b, Sell).Some? ==>
              var p := Best(b, Sell).value; p in b.asks && forall q :: q in b.asks ==> p <= q
  {
  }

  // ---- Orders ----

  /** Matching never changes the side or the price of a resting order. */
  lemma {:induction false} TermsStay(b: Book, t: Taker, remaining: nat)
    ensures var m := Match(b, t, remaining);
            forall id :: id in m.book.orders ==>
              id in b.orders && m.book.orders[id].side == b.orders[id].side
              && m.book.orders[id].price == b.orders[id].price
    decreases |b.orders|, remaining
  {
    if !Stops(b, t, remaining) {
      var price := Best(b, Opposite(t.side)).value;
      FillShrinks(b, t, remaining, price);
      var h := HeadFill(b, t, remaining, price);
      TermsStay(h.book, t, h.remaining);
    }
  }

  /** The k-th event is a trade with the maker's update right behind it, or such an update. */
  ghost predicate ReportedAt(b: Book, after: Book, log: seq<Event>, k: nat)
    requires k < |log|
  {
    if k % 2 == 0 then
      && log[k].Trade? && k + 1 < |log| && log[k + 1].Update? && log[k + 1].id == log[k].maker
      && Holding(b, log[k].maker) == log[k].quantity + Holding(after, log[k].maker)
    else
      && log[k].Update? && log[k].remaining == Holding(after, log[k].id)
      && log[k].state == if Holding(after, log[k].id) == 0 then Filled else PartiallyFilled
  }

  /** Each trade is followed by the maker's update, which says what is left of the maker: filled exactly at zero. */
  ghost predicate Reported(b: Book, after: Book, log: seq<Event>)
  {
    forall k :: 0 <= k < |log| ==> ReportedAt(b, after, log, k)
  }

  lemma {:induction false} UpdatesTellHoldings(b: Book, t: Taker, remaining: nat)
    requires WF(b)
    ensures Reported(b, Match(b, t, remaining).book, Match(b, t, remaining).log)
    decreases |b.orders|, remaining
  {
    hide WF;
    if !Stops(b, t, remaining) {
      var price := Best(b, Opposite(t.side)).value;
      HeadOfBest(b, Opposite(t.side));
      FillKeeps(b, t, remaining);
      FillShrinks(b, t, remaining, price);
      var h := HeadFill(b, t, remaining, price);
      var m := Match(h.book, t, h.remaining);
      UpdatesTellHoldings(h.book, t, h.remaining);
      TradesWithinLimit(h.book, t, h.remaining);
      MatchKeeps(h.book, t, h.remaining);
      OneMore(b, h, m.book, m.log);
    }
  }

  lemma OneMore(b: Book, h: Outcome, after: Book, more: seq<Event>)
    requires |h.log| == 2 && h.log[0].Trade? && h.log[1].Update? && h.log[1].id == h.log[0].maker
    requires var id := h.log[0].maker;
             && Holding(b, id) == h.log[0].quantity + Holding(after, id)
             && h.log[1].remaining == Holding(after, id)
             && h.log[1].state == if Holding(after, id) == 0 then Filled else PartiallyFilled
    requires Reported(h.book, after, more)
    requires forall k :: 0 <= k < |more| && more[k].Trade? ==>
               Holding(b, more[k].maker) == Holding(h.book, more[k].maker)
    ensures Reported(b, after, h.log + more)
  {
    var log := h.log + more;
    forall k | 0 <= k < |log|
      ensures ReportedAt(b, after, log, k)
    {
      if k >= 2 {
        var j := k - 2;
        assert ReportedAt(h.book, after, more, j) && log[k] == more[j] && j % 2 == k % 2;
        assert j + 1 < |more| ==> log[k + 1] == more[j + 1];
      }
    }
  }

  // ---- What becomes of an incoming order ----

  /** The state an order ends in when `traded` of its quantity has been traded. */
  function EndState(kind: OrderType, quantity: nat, traded: nat): OrderState {
    if traded == quantity then Filled
    else if kind == Market then Canceled
    else if traded == 0 then New
    else PartiallyFilled
  }

  /**
   An order of this size has been dealt with: its last update says what was not traded; of a limit order
   exactly that rests, last in its queue; and every other order holds what it held less its own trades.
   */
  ghost predicate Completed(b: Book, id: nat, side: Side, kind: OrderType, price: int, quantity: nat, r: Result)
  {
    var traded := Volume(r.log);
    && r.ok && WF(r.book) && traded <= quantity
    && r.log != [] && r.log[|r.log| - 1] == Update(id, EndState(kind, quantity, traded), quantity - traded)
    && (id in r.book.orders <==> kind == Limit && traded < quantity)
    && (id in r.book.orders ==>
          && r.book.orders[id] == Order(side, price, quantity - traded)
          && Queue(r.book, side, price) == Queue(b, side, price) + [id])
    && (forall x :: x != id ==> Holding(r.book, x) + VolumeOf(r.log, x) == Holding(b, x))
    && (forall x :: x != id && x in r.book.orders ==>
          x in b.orders && r.book.orders[x].side == b.orders[x].side && r.book.orders[x].price == b.orders[x].price)
  }

  lemma {:induction false} NotTheTaker(b: Book, t: Taker, remaining: nat)
    requires t.id !in b.orders
    ensures forall e :: e in Match(b, t, remaining).log && e.Update? ==> e.id != t.id
    decreases |b.orders|, remaining
  {
    if !Stops(b, t, remaining) {
      var price := Best(b, Opposite(t.side)).value;
      FillShrinks(b, t, remaining, price);
      NotTheTaker(HeadFill(b, t, remaining, price).book, t, HeadFill(b, t, remaining, price).remaining);
    }
  }

  lemma VolumeEnds(log: seq<Event>, e: Event, id: nat)
    requires e.Update?
    ensures Volume(log + [e]) == Volume(log) && VolumeOf(log + [e], id) == VolumeOf(log, id)
  {
    VolumeAdds(log, [e], id);
  }

  lemma ExecuteOutcome(b: Book, t: Taker, quantity: nat)
    requires WF(b) && t.id !in b.orders && quantity > 0
    ensures Completed(b, t.id, t.side, t.kind, t.price, quantity, Execute(b, t, quantity))
    ensures var log := Execute(b, t, quantity).log;
            log[..|log| - 1] == Match(b, t, quantity).log
            && forall e :: e in log[..|log| - 1] && e.Update? ==> e.id != t.id
  {
    hide WF, Match, Volume, VolumeOf;
    var m, r := Match(b, t, quantity), Execute(b, t, quantity);
    MatchKeeps(b, t, quantity);
    TermsStay(b, t, quantity);
    NotTheTaker(b, t, quantity);
    if m.remaining > 0 && t.kind.Limit? {
      AddKeeps(m.book, t.id, Order(t.side, t.price, m.remaining));
    }
    MatchConserves(b, t, quantity, t.id);
    VolumeEnds(m.log, r.log[|m.log|], t.id);
    forall x
      ensures x != t.id ==> Holding(r.book, x) + VolumeOf(r.log, x) == Holding(b, x)
    {
      MatchConserves(b, t, quantity, x);
      VolumeEnds(m.log, r.log[|m.log|], x);
    }
  }

  /** The dense book takes exactly a new order it can index and price while it has room, and completes it. */
  lemma DenseSubmitOutcome(b: Book, capacity: nat, grid: seq<int>, o: OrderRequest)
    requires WF(b)
    ensures var r := DenseSubmit(b, capacity, grid, o);
            && (r.ok <==> o.id != 0 && o.id != U64_MAX && o.id !in b.orders && o.quantity > 0
                          && |b.orders| < capacity && (o.kind == Limit ==> o.price in grid))
            && (r.ok ==> Completed(b, o.id, o.side, o.kind, o.price, o.quantity, r))
            && (!r.ok ==> r.book == b && r.log == [Update(o.id, Rejected, o.quantity)])
  {
    hide Completed, Execute;
    var t := Taker(o.id, o.side, o.kind, o.price);
    if DenseSubmit(b, capacity, grid, o) == Execute(b, t, o.quantity) && o.id !in b.orders && o.quantity > 0 {
      ExecuteOutcome(b, t, o.quantity);
      CompletedOk(b, t, o.quantity);
    }
  }

  lemma CompletedOk(b: Book, t: Taker, quantity: nat)
    requires Completed(b, t.id, t.side, t.kind, t.price, quantity, Execute(b, t, quantity))
    ensures Execute(b, t, quantity).ok
  {
  }

  /** The reference book takes exactly a new order with a positive limit while it has room, and completes it. */
  lemma ReferenceSubmitOutcome(b: Book, capacity: nat, o: OrderRequest)
    requires WF(b)
    ensures var r := ReferenceSubmit(b, capacity, o);
            && (r.ok <==> o.id != 0 && o.id !in b.orders && o.quantity > 0
                          && |b.orders| < capacity && (o.kind == Limit ==> o.price > 0))
            && (r.ok ==> Completed(b, o.id, o.side, o.kind, o.price, o.quantity, r))
            && (!r.ok ==> r.book == b && r.log == [Update(o.id, Rejected, o.quantity)])
  {
    hide Completed, Execute;
    var t := Taker(o.id, o.side, o.kind, o.price);
    if o.id !in b.orders && o.quantity > 0 {
      ExecuteOutcome(b, t, o.quantity);
      CompletedOk(b, t, o.quantity);
    }
  }

  /** A new order is stored as it is, last in its queue, and nothing else moves. */
  lemma AddOutcome(b: Book, id: nat, o: Order)
    ensures var b' := Add(b, id, o);
            && b'.orders == b.orders[id := o]
            && Queue(b', o.side, o.price) == Queue(b, o.side, o.price) + [id]
            && forall s, p :: s != o.side || p != o.price ==> Queue(b', s, p) == Queue(b, s, p)
  {
  }

  /** Taking an order out leaves every other one, and closes its queue up around it. */
  lemma RemoveOutcome(b: Book, id: nat)
    requires WF(b) && id in b.orders
    ensures var o, b' := b.orders[id], Remove(b, id);
            && WF(b') && b'.orders == b.orders - {id}
            && (forall s, p :: s != o.side || p != o.price ==> Queue(b', s, p) == Queue(b, s, p))
            && exists before, after ::
                 Queue(b, o.side, o.price) == before + [id] + after && Queue(b', o.side, o.price) == before + after
  {
    var o := b.orders[id];
    RemoveKeeps(b, id);
    assert OrderOK(b, id) && LevelOK(b, o.side, o.price);
    var before, after := WithoutCloses(Queue(b, o.side, o.price), id);
  }

  lemma {:induction false} WithoutCloses(q: seq<nat>, id: nat) returns (before: seq<nat>, after: seq<nat>)
    requires id in q
    ensures q == before + [id] + after && Without(q, id) == before + after
  {
    if q[0] == id {
      before, after := [], q[1..];
    } else {
      before, after := WithoutCloses(q[1..], id);
      before := [q[0]] + before;
    }
  }

  /** A modification keeps the side, gives up the old place and is completed as a new limit order. */
  lemma DenseModifyOutcome(b: Book, grid: seq<int>, id: nat, price: int, quantity: nat)
    requires WF(b)
    ensures var r := DenseModify(b, grid, id, price, quantity);
            && (r.ok <==> id in b.orders && quantity > 0 && price in grid)
            && (r.ok ==> Completed(Remove(b, id), id, b.orders[id].side, Limit, price, quantity, r))
            && (!r.ok ==> r.book == b && r.log == [])
  {
    hide Completed, Execute, Remove;
    if id in b.orders && quantity > 0 {
      RemoveOutcome(b, id);
      var t := Taker(id, b.orders[id].side, Limit, price);
      ExecuteOutcome(Remove(b, id), t, quantity);
      CompletedOk(Remove(b, id), t, quantity);
    }
  }

  /** The same by releasing the order and submitting it again; there is always room for it. */
  lemma ReferenceModifyOutcome(b: Book, capacity: nat, id: nat, price: int, quantity: nat)
    requires WF(b) && |b.orders| <= capacity && 0 !in b.orders
    ensures var r := ReferenceModify(b, capacity, id, price, quantity);
            && (r.ok <==> id in b.orders && quantity > 0 && price > 0)
            && (r.ok ==> Completed(Remove(b, id), id, b.orders[id].side, Limit, price, quantity, r))
            && (!r.ok ==> r.book == b && r.log == [])
  {
    hide Completed, Remove, ReferenceSubmit;
    if id in b.orders && quantity > 0 && price > 0 {
      RemoveOutcome(b, id);
      Smaller(b.orders, id);
      ReferenceSubmitOutcome(Remove(b, id), capacity, OrderRequest(id, b.orders[id].side, Limit, price, quantity));
    }
  }

  /** A cancellation reports what was left of a known order and takes it out. */
  lemma CancelOutcome(b: Book, id: nat)
    requires WF(b)
    ensures var r := Cancel(b, id);
            && (r.ok <==> id in b.orders)
            && (r.ok ==> r.book == Remove(b, id) && r.log == [Update(id, OrderState.Canceled, b.orders[id].remaining)])
            && (!r.ok ==> r.book == b && r.log == [])
  {
  }
}
