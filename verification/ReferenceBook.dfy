/**
 The map-based reference book. Its price maps and its id map are the fields; a level's linked list
 of nodes is the sequence of its order ids.
 */
module ReferenceBooks {
  import opened Collections
  import opened Machine
  import opened Books
  import opened BookLaws

  lemma FilledOrders(orders: map<nat, Order>, taker: nat, maker: nat, o: Order)
    requires taker in orders && maker in orders && maker != taker
    ensures (orders - {maker})[taker := o] - {taker} == orders - {taker} - {maker}
    ensures |(orders - {maker})[taker := o]| == |orders| - 1
  {
    Smaller(orders, maker);
    assert (orders - {maker})[taker := o].Keys == (orders - {maker}).Keys;
  }

  lemma ShrunkOrders(orders: map<nat, Order>, taker: nat, maker: nat, m: Order, o: Order)
    requires taker in orders && maker in orders && maker != taker
    ensures orders[maker := m][taker := o] - {taker} == (orders - {taker})[maker := m]
    ensures |orders[maker := m][taker := o]| == |orders|
  {
    assert orders[maker := m][taker := o].Keys == orders.Keys;
  }

  lemma StopsMatching(b: Book, t: Taker, remaining: nat)
    requires Stops(b, t, remaining)
    ensures Match(b, t, remaining) == Outcome(b, remaining, [])
  {
  }

  class PriceTimeOrderBook {
    const capacity: nat
    var orders: map<nat, Order>
    var bids: Ladder
    var asks: Ladder
    var active: nat

    ghost function Model(): Book
      reads this
    {
      Book(orders, bids, asks)
    }

    ghost predicate Valid()
      reads this
    {
      WF(Model()) && active == |orders| <= capacity
    }

    constructor (capacity: nat)
      ensures Valid() && Model() == EMPTY && this.capacity == capacity
    {
      this.capacity := capacity;
      orders, bids, asks, active := map[], map[], map[], 0;
    }

    // While its taker is being matched the id map holds it too, in no level.

    ghost function Others(t: Taker): Book
      reads this
    {
      Book(orders - {t.id}, bids, asks)
    }

    ghost predicate Taking(t: Taker, remaining: nat)
      reads this
    {
      && t.id in orders && orders[t.id] == Order(t.side, t.price, remaining)
      && WF(Others(t)) && active == |orders| <= capacity
    }

    /** One trade with the order at the head of the best level. */
    method FillHead(t: Taker, price: int, before: nat) returns (remaining: nat, log: seq<Event>)
      requires Taking(t, before) && before > 0 && Best(Others(t), Opposite(t.side)) == Some(price)
      modifies this`orders, this`bids, this`asks, this`active
      ensures Taking(t, remaining) && remaining <= before
      ensures var b := old(Others(t));
              var q := Queue(b, Opposite(t.side), price);
              && q != [] && q[0] in b.orders
              && Outcome(Others(t), remaining, log) == HeadFill(b, t, before, price)
    {
      hide WF, Best;
      var s := Opposite(t.side);
      ghost var b := Others(t);
      HeadOfBest(b, s);
      FillKeeps(b, t, before);
      var queue := if s.Buy? then bids[price] else asks[price];
      var maker := queue[0];
      var have := orders[maker].remaining;
      var traded := if before < have then before else have;
      remaining := before - traded;
      log := [Trade(maker, t.id, price, traded)];
      ghost var h := HeadFill(b, t, before, price);
      if have - traded == 0 {
        log := log + [Update(maker, Filled, 0)];
        FilledOrders(orders, t.id, maker, Order(t.side, t.price, remaining));
        SetLevel(s, price, queue[1..]);
        orders := orders - {maker};
        active := active - 1;
      } else {
        log := log + [Update(maker, PartiallyFilled, have - traded)];
        ShrunkOrders(orders, t.id, maker, Order(s, price, have - traded), Order(t.side, t.price, remaining));
        orders := orders[maker := orders[maker].(remaining := have - traded)];
      }
      orders := orders[t.id := orders[t.id].(remaining := remaining)];
    }

    /** Store a level's queue, or erase the level when it is empty. */
    method SetLevel(s: Side, price: int, queue: seq<nat>)
      modifies this`bids, this`asks
      ensures bids == if s.Buy? then Put(old(bids), price, queue) else old(bids)
      ensures asks == if s.Sell? then Put(old(asks), price, queue) else old(asks)
    {
      if s.Buy? {
        bids := if queue == [] then bids - {price} else bids[price := queue];
      } else {
        asks := if queue == [] then asks - {price} else asks[price := queue];
      }
    }

    /** The inner loop: trade with one level until it or the taker is exhausted. */
    method MatchLevel(t: Taker, price: int, before: nat) returns (remaining: nat, log: seq<Event>)
      requires Taking(t, before) && before > 0 && Best(Others(t), Opposite(t.side)) == Some(price) && Crosses(t, price)
      modifies this`orders, this`bids, this`asks, this`active
      ensures Taking(t, remaining) && remaining <= before && |Others(t).orders| <= |old(Others(t)).orders|
      ensures Match(old(Others(t)), t, before) == Resume(log, Match(Others(t), t, remaining))
      ensures |Others(t).orders| < |old(Others(t)).orders| || remaining < before
    {
      hide WF, HeadFill, Best;
      var s := Opposite(t.side);
      ghost var b0 := Others(t);
      HeadOfBest(b0, s);
      remaining, log := before, [];
      while remaining != 0 && price in (if s.Buy? then bids else asks)
        invariant Taking(t, remaining)
        invariant Match(b0, t, before) == Resume(log, Match(Others(t), t, remaining))
        invariant price in SideOf(Others(t), s) ==> Best(Others(t), s) == Some(price)
        invariant |Others(t).orders| <= |b0.orders| && remaining <= before
        invariant |Others(t).orders| == |b0.orders| && remaining == before ==> price in SideOf(Others(t), s)
        decreases |Others(t).orders|, remaining
      {
        ghost var b, r := Others(t), remaining;
        HeadOfBest(b, s);
        FillSurvives(b, t, r, price);
        var fill;
        remaining, fill := FillHead(t, price, remaining);
        log := log + fill;
      }
    }

    /** The outer loop over the levels of the opposite side, best first. */
    method MatchLevels(t: Taker, quantity: nat) returns (remaining: nat, log: seq<Event>)
      requires Taking(t, quantity)
      modifies this`orders, this`bids, this`asks, this`active
      ensures Taking(t, remaining)
      ensures Outcome(Others(t), remaining, log) == Match(old(Others(t)), t, quantity)
    {
      hide WF, HeadFill, Queue, Match;
      remaining, log := quantity, [];
      ghost var whole := Match(Others(t), t, quantity);
      var s := Opposite(t.side);
      while remaining != 0 && (if s.Buy? then bids else asks) != map[]
        invariant Taking(t, remaining)
        invariant whole == Resume(log, Match(Others(t), t, remaining))
        decreases |Others(t).orders|, remaining
      {
        var levels := if s.Buy? then bids else asks;
        BestExists(levels, s);
        var price :| price in levels && forall q :: q in levels ==> Better(s, price, q);
        BestIs(Others(t), s, price);
        if !(t.kind.Market? || if t.side.Buy? then t.price >= price else t.price <= price) {
          break;
        }
        var fills;
        remaining, fills := MatchLevel(t, price, remaining);
        log := log + fills;
      }
      StopsMatching(Others(t), t, remaining);
    }

    /** Queue what is left of the taker at the tail of its level. */
    method Rest(t: Taker, remaining: nat)
      requires Taking(t, remaining) && remaining > 0
      modifies this`bids, this`asks
      ensures Valid() && Model() == Add(old(Others(t)), t.id, Order(t.side, t.price, remaining))
    {
      hide WF;
      AddKeeps(Others(t), t.id, Order(t.side, t.price, remaining));
      ghost var resting := Add(Others(t), t.id, Order(t.side, t.price, remaining));
      assert orders == resting.orders;
      var levels := if t.side.Buy? then bids else asks;
      SetLevel(t.side, t.price, (if t.price in levels then levels[t.price] else []) + [t.id]);
      assert Model() == resting;
    }

    method Submit(r: OrderRequest) returns (ok: bool, log: seq<Event>)
      requires Valid()
      modifies this`orders, this`bids, this`asks, this`active
      ensures Valid()
      ensures Result(ok, Model(), log) == ReferenceSubmit(old(Model()), capacity, r)
    {
      hide WF, Match, Better, Without;
      if r.id == 0 || r.quantity == 0 || (r.kind.Limit? && r.price <= 0) || r.id in orders || active == capacity {
        return false, [Update(r.id, Rejected, r.quantity)];
      }
      ghost var b := Model();
      var t := Taker(r.id, r.side, r.kind, r.price);
      orders := orders[r.id := Order(r.side, r.price, r.quantity)];
      active := active + 1;
      assert orders - {r.id} == b.orders;
      var remaining;
      remaining, log := MatchLevels(t, r.quantity);
      MatchKeeps(b, t, r.quantity);
      Smaller(orders, r.id);
      ok := true;
      if remaining == 0 {
        log := log + [Update(r.id, Filled, 0)];
        orders, active := orders - {r.id}, active - 1;
        return;
      }
      if r.kind.Market? {
        log := log + [Update(r.id, Canceled, remaining)];
        orders, active := orders - {r.id}, active - 1;
        return;
      }
      Rest(t, remaining);
      log := log + [Update(r.id, if remaining == r.quantity then New else PartiallyFilled, remaining)];
    }

    /** Unlink and release a resting order. */
    method Drop(id: nat)
      requires Valid() && id in orders
      modifies this`orders, this`bids, this`asks, this`active
      ensures Valid() && Model() == Remove(old(Model()), id)
    {
      RemoveKeeps(Model(), id);
      Smaller(orders, id);
      var o := orders[id];
      ghost var after := Remove(Model(), id);
      var levels := if o.side.Buy? then bids else asks;
      SetLevel(o.side, o.price, Without(if o.price in levels then levels[o.price] else [], id));
      orders, active := orders - {id}, active - 1;
      assert Model() == after;
    }

    method Cancel(id: nat) returns (ok: bool, log: seq<Event>)
      requires Valid()
      modifies this`orders, this`bids, this`asks, this`active
      ensures Valid()
      ensures Result(ok, Model(), log) == Books.Cancel(old(Model()), id)
    {
      if id !in orders {
        return false, [];
      }
      log := [Update(id, Canceled, orders[id].remaining)];
      Drop(id);
      ok := true;
    }

    /** Modify releases the order and submits it again. */
    method Modify(id: nat, price: int, quantity: nat) returns (ok: bool, log: seq<Event>)
      requires Valid()
      modifies this`orders, this`bids, this`asks, this`active
      ensures Valid()
      ensures Result(ok, Model(), log) == ReferenceModify(old(Model()), capacity, id, price, quantity)
    {
      if id !in orders || price <= 0 || quantity == 0 {
        return false, [];
      }
      var side := orders[id].side;
      Drop(id);
      ok, log := Submit(OrderRequest(id, side, Limit, price, quantity));
    }

    method BestBid() returns (price: int)
      requires Valid()
      ensures price == if Best(Model(), Buy) == None then 0 else Best(Model(), Buy).value
      ensures bids == map[] ==> price == 0
      ensures bids != map[] ==> price in bids && forall p :: p in bids ==> p <= price
    {
      if bids == map[] {
        return 0;
      }
      BestExists(bids, Buy);
      price :| price in bids && forall q :: q in bids ==> q <= price;
      BestIs(Model(), Buy, price);
    }

    method BestAsk() returns (price: int)
      requires Valid()
      ensures price == if Best(Model(), Sell) == None then 0 else Best(Model(), Sell).value
      ensures asks == map[] ==> price == 0
      ensures asks != map[] ==> price in asks && forall p :: p in asks ==> price <= p
    {
      if asks == map[] {
        return 0;
      }
      BestExists(asks, Sell);
      price :| price in asks && forall q :: q in asks ==> price <= q;
      BestIs(Model(), Sell, price);
    }
  }
}
