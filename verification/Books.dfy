/**
 The abstract limit order book: orders by id, and per side a ladder from price to the FIFO queue
 of order ids. Both concrete books are proved against these functions.
 */
module Books {
  import opened Collections
  import opened Machine

  datatype Side = Buy | Sell
  datatype OrderType = Limit | Market
  datatype OrderState = New | PartiallyFilled | Filled | Canceled | Rejected
  datatype OrderRequest = OrderRequest(id: nat, side: Side, kind: OrderType, price: int, quantity: nat)
  datatype Event =
    | Trade(maker: nat, taker: nat, price: int, quantity: nat)
    | Update(id: nat, state: OrderState, remaining: nat)

  datatype Order = Order(side: Side, price: int, remaining: nat)
  type Ladder = map<int, seq<nat>>
  datatype Book = Book(orders: map<nat, Order>, bids: Ladder, asks: Ladder)

  const EMPTY: Book := Book(map[], map[], map[])

  function Opposite(s: Side): Side {
    if s.Buy? then Sell else Buy
  }

  function SideOf(b: Book, s: Side): Ladder {
    if s.Buy? then b.bids else b.asks
  }

  function Queue(b: Book, s: Side, price: int): seq<nat> {
    var l := SideOf(b, s);
    if price in l then l[price] else []
  }

  /** The ladder with the queue at `price` replaced; an empty queue is no level. */
  function Put(l: Ladder, price: int, q: seq<nat>): Ladder {
    if q == [] then l - {price} else l[price := q]
  }

  function PutQueue(b: Book, s: Side, price: int, q: seq<nat>): Book {
    if s.Buy? then b.(bids := Put(b.bids, price, q)) else b.(asks := Put(b.asks, price, q))
  }

  /** The queue without its first occurrence of `id`. */
  function Without(q: seq<nat>, id: nat): seq<nat> {
    if q == [] then [] else if q[0] == id then q[1..] else [q[0]] + Without(q[1..], id)
  }

  /** A new order goes to the tail of its price level. */
  function Add(b: Book, id: nat, o: Order): Book {
    PutQueue(b.(orders := b.orders[id := o]), o.side, o.price, Queue(b, o.side, o.price) + [id])
  }

  function Remove(b: Book, id: nat): Book
    requires id in b.orders
  {
    var o := b.orders[id];
    PutQueue(b.(orders := b.orders - {id}), o.side, o.price, Without(Queue(b, o.side, o.price), id))
  }

  /** Lower the remaining quantity in place: the queues, hence the time priority, stay. */
  function Shrink(b: Book, id: nat, quantity: nat): Book
    requires id in b.orders && quantity <= b.orders[id].remaining
  {
    var o := b.orders[id];
    b.(orders := b.orders[id := o.(remaining := o.remaining - quantity)])
  }

  function Reduce(b: Book, id: nat, quantity: nat): Book
    requires id in b.orders && quantity <= b.orders[id].remaining
  {
    if quantity == b.orders[id].remaining then Remove(b, id) else Shrink(b, id, quantity)
  }

  predicate Better(s: Side, p: int, q: int) {
    if s.Buy? then p >= q else p <= q
  }

  ghost predicate IsBest(l: Ladder, s: Side, p: int)
  {
    p in l && forall q :: q in l ==> Better(s, p, q)
  }

  /** Highest bid or lowest ask. */
  ghost function Best(b: Book, s: Side): (r: Option<int>)
    ensures r == None <==> SideOf(b, s) == map[]
    ensures r.Some? ==> IsBest(SideOf(b, s), s, r.value)
  {
    var l := SideOf(b, s);
    if l == map[] then None else
      BestExists(l, s);
      var p :| IsBest(l, s, p);
      Some(p)
  }

  lemma {:induction false} BestExists(l: Ladder, s: Side)
    requires l != map[]
    ensures exists p :: IsBest(l, s, p)
    decreases |l|
  {
    assert exists x :: x in l by {
      if forall x :: x !in l {
        assert false;
      }
    }
    var x :| x in l;
    var rest := l - {x};
    if rest == map[] {
      assert forall q :: q in l ==> q == x || q in rest;
      assert IsBest(l, s, x);
    } else {
      Smaller(l, x);
      BestExists(rest, s);
      var p :| IsBest(rest, s, p);
      assert forall q :: q in l ==> q == x || q in rest;
      assert IsBest(l, s, if Better(s, x, p) then x else p);
    }
  }

  lemma BestIs(b: Book, s: Side, p: int)
    requires IsBest(SideOf(b, s), s, p)
    ensures Best(b, s) == Some(p)
  {
  }

  datatype Taker = Taker(id: nat, side: Side, kind: OrderType, price: int)
  datatype Outcome = Outcome(book: Book, remaining: nat, log: seq<Event>)

  predicate Crosses(t: Taker, price: int) {
    t.kind.Market? || (if t.side.Buy? then price <= t.price else t.price <= price)
  }

  /** One fill of the taker against the head of the queue at `price`. */
  ghost function HeadFill(b: Book, t: Taker, remaining: nat, price: int): Outcome
    requires var q := Queue(b, Opposite(t.side), price); q != [] && q[0] in b.orders
  {
    var maker := Queue(b, Opposite(t.side), price)[0];
    var have := b.orders[maker].remaining;
    if have <= remaining then
      Outcome(Remove(b, maker), remaining - have, [Trade(maker, t.id, price, have), Update(maker, Filled, 0)])
    else
      Outcome(Shrink(b, maker, remaining), 0,
              [Trade(maker, t.id, price, remaining), Update(maker, PartiallyFilled, have - remaining)])
  }

  /** Nothing more to match: the taker is filled, the opposite side is empty, or its best price is out of reach. */
  ghost predicate Stops(b: Book, t: Taker, remaining: nat)
  {
    var best := Best(b, Opposite(t.side));
    remaining == 0 || best == None || !Crosses(t, best.value)
    || (var q := Queue(b, Opposite(t.side), best.value); q == [] || q[0] !in b.orders)
  }

  /**
   Match a taker against the opposite side: repeatedly the head of the best queue, until the taker
   is filled, the side is empty or the price limit stops it.
   */
  ghost function Match(b: Book, t: Taker, remaining: nat): Outcome
    decreases |b.orders|, remaining
  {
    if Stops(b, t, remaining) then Outcome(b, remaining, [])
    else
      var price := Best(b, Opposite(t.side)).value;
      var h := HeadFill(b, t, remaining, price);
      assert |h.book.orders| < |b.orders| || (|h.book.orders| == |b.orders| && h.remaining < remaining) by {
        FillShrinks(b, t, remaining, price);
      }
      Resume(h.log, Match(h.book, t, h.remaining))
  }

  /** As long as the taker reaches the best level, matching starts with a fill of its head. */
  lemma MatchUnfolds(b: Book, t: Taker, remaining: nat, price: int)
    requires Best(b, Opposite(t.side)) == Some(price) && Crosses(t, price) && remaining > 0
    requires var q := Queue(b, Opposite(t.side), price); q != [] && q[0] in b.orders
    ensures var h := HeadFill(b, t, remaining, price);
            h.remaining <= remaining && Match(b, t, remaining) == Resume(h.log, Match(h.book, t, h.remaining))
  {
  }

  ghost function Resume(log: seq<Event>, m: Outcome): Outcome {
    m.(log := log + m.log)
  }

  lemma FillShrinks(b: Book, t: Taker, remaining: nat, price: int)
    requires var q := Queue(b, Opposite(t.side), price); q != [] && q[0] in b.orders
    requires remaining > 0
    ensures var h := HeadFill(b, t, remaining, price);
            |h.book.orders| < |b.orders| || (|h.book.orders| == |b.orders| && h.remaining < remaining)
  {
    var maker := Queue(b, Opposite(t.side), price)[0];
    Smaller(b.orders, maker);
    if b.orders[maker].remaining > remaining {
      assert Shrink(b, maker, remaining).orders.Keys == b.orders.Keys;
    }
  }

  /** Taking one order out or down leaves the best price best as long as its level survives. */
  lemma BestSurvives(b: Book, b': Book, s: Side, p: int)
    requires Best(b, s) == Some(p) && p in SideOf(b', s)
    requires forall q :: q in SideOf(b', s) ==> q in SideOf(b, s)
    ensures Best(b', s) == Some(p)
  {
    BestIs(b', s, p);
  }

  /** After one fill the price stays the best one as long as its queue survives. */
  lemma FillSurvives(b: Book, t: Taker, remaining: nat, price: int)
    requires Best(b, Opposite(t.side)) == Some(price) && remaining > 0
    requires var q := Queue(b, Opposite(t.side), price); q != [] && q[0] in b.orders
    ensures var b' := HeadFill(b, t, remaining, price).book;
            price in SideOf(b', Opposite(t.side)) ==> Best(b', Opposite(t.side)) == Some(price)
    ensures var h := HeadFill(b, t, remaining, price);
            |h.book.orders| < |b.orders| || (|h.book.orders| == |b.orders| && h.remaining < remaining)
  {
    FillShrinks(b, t, remaining, price);
    var s := Opposite(t.side);
    var b', maker := HeadFill(b, t, remaining, price).book, Queue(b, s, price)[0];
    if price in SideOf(b', s) {
      BestSurvives(b, b', s, price);
    }
  }

  lemma RemoveAfterShrink(b: Book, id: nat, quantity: nat)
    requires id in b.orders && quantity <= b.orders[id].remaining
    ensures Remove(Shrink(b, id, quantity), id) == Remove(b, id)
  {
    assert Shrink(b, id, quantity).orders - {id} == b.orders - {id};
  }

  datatype Result = Result(ok: bool, book: Book, log: seq<Event>)

  /** Match an incoming order and rest, cancel or complete what is left of it. */
  ghost function Execute(b: Book, t: Taker, quantity: nat): Result {
    var m := Match(b, t, quantity);
    if m.remaining == 0 then
      Result(true, m.book, m.log + [Update(t.id, Filled, 0)])
    else if t.kind.Market? then
      Result(true, m.book, m.log + [Update(t.id, Canceled, m.remaining)])
    else
      var state := if m.remaining == quantity then New else PartiallyFilled;
      Result(true, Add(m.book, t.id, Order(t.side, t.price, m.remaining)), m.log + [Update(t.id, state, m.remaining)])
  }

  ghost function Cancel(b: Book, id: nat): Result {
    if id !in b.orders then Result(false, b, [])
    else Result(true, Remove(b, id), [Update(id, Canceled, b.orders[id].remaining)])
  }

  // What the dense book answers, on a price grid and with a node capacity.

  ghost function DenseSubmit(b: Book, capacity: nat, grid: seq<int>, r: OrderRequest): Result {
    if r.id == 0 || r.id == U64_MAX || r.quantity == 0 || r.id in b.orders
       || (r.kind.Limit? && r.price !in grid) || |b.orders| >= capacity
    then Result(false, b, [Update(r.id, Rejected, r.quantity)])
    else Execute(b, Taker(r.id, r.side, r.kind, r.price), r.quantity)
  }

  ghost function DenseModify(b: Book, grid: seq<int>, id: nat, price: int, quantity: nat): Result {
    if id !in b.orders || quantity == 0 || price !in grid then Result(false, b, [])
    else Execute(Remove(b, id), Taker(id, b.orders[id].side, Limit, price), quantity)
  }

  // What the reference book answers.

  ghost function ReferenceSubmit(b: Book, capacity: nat, r: OrderRequest): Result {
    if r.id == 0 || r.quantity == 0 || (r.kind.Limit? && r.price <= 0) || r.id in b.orders || |b.orders| >= capacity
    then Result(false, b, [Update(r.id, Rejected, r.quantity)])
    else Execute(b, Taker(r.id, r.side, r.kind, r.price), r.quantity)
  }

  ghost function ReferenceModify(b: Book, capacity: nat, id: nat, price: int, quantity: nat): Result {
    if id !in b.orders || price <= 0 || quantity == 0 then Result(false, b, [])
    else ReferenceSubmit(Remove(b, id), capacity, OrderRequest(id, b.orders[id].side, Limit, price, quantity))
  }
}
