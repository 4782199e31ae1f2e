/** Laws of the abstract book: well-formedness, conservation, price-time priority, never crossed. */
module BookLaws {
  import opened Collections
  import opened Machine
  import opened Books

  // ---- Well-formed books ----

  /** A level lists, once each, orders of its own side and price, and is not empty. */
  ghost predicate LevelOK(b: Book, s: Side, p: int)
  {
    p in SideOf(b, s) ==>
      var q := SideOf(b, s)[p];
      && q != [] && Distinct(q)
      && forall id :: id in q ==> id in b.orders && b.orders[id].side == s && b.orders[id].price == p
  }

  ghost predicate OrderOK(b: Book, id: nat)
  {
    id in b.orders ==> id in Queue(b, b.orders[id].side, b.orders[id].price) && b.orders[id].remaining > 0
  }

  ghost predicate WF(b: Book)
  {
    && (forall s, p {:trigger LevelOK(b, s, p)} :: LevelOK(b, s, p))
    && (forall id {:trigger OrderOK(b, id)} :: OrderOK(b, id))
  }

  lemma {:induction false} WithoutElements(q: seq<nat>, id: nat)
    requires Distinct(q)
    ensures Distinct(Without(q, id)) && forall x :: x in Without(q, id) <==> x in q && x != id
  {
    if q != [] && q[0] != id {
      WithoutElements(q[1..], id);
      var rest := Without(q[1..], id);
      assert q == [q[0]] + q[1..];
      assert forall x :: x in [q[0]] + rest <==> x == q[0] || x in rest;
      assert forall x :: x in q <==> x == q[0] || x in q[1..];
      assert q[0] !in rest;
      assert forall j :: 0 <= j < |rest| ==> rest[j] in rest;
    } else if q != [] {
      assert q == [q[0]] + q[1..];
    }
  }

  lemma AddKeeps(b: Book, id: nat, o: Order)
    requires WF(b) && id !in b.orders && o.remaining > 0
    ensures WF(Add(b, id, o))
  {
    var b' := Add(b, id, o);
    var q := Queue(b, o.side, o.price);
    assert LevelOK(b, o.side, o.price);
    assert forall x :: x in q + [id] <==> x in q || x == id;
    forall s, p
      ensures LevelOK(b', s, p)
    {
      assert LevelOK(b, s, p);
    }
    forall x
      ensures OrderOK(b', x)
    {
      assert OrderOK(b, x);
    }
  }

  lemma RemoveKeeps(b: Book, id: nat)
    requires WF(b) && id in b.orders
    ensures WF(Remove(b, id))
  {
    var o, b' := b.orders[id], Remove(b, id);
    assert LevelOK(b, o.side, o.price) && OrderOK(b, id);
    WithoutElements(Queue(b, o.side, o.price), id);
    forall s, p
      ensures LevelOK(b', s, p)
    {
      assert LevelOK(b, s, p);
    }
    forall x
      ensures OrderOK(b', x)
    {
      assert OrderOK(b, x);
    }
  }

  lemma ShrinkKeeps(b: Book, id: nat, quantity: nat)
    requires WF(b) && id in b.orders && quantity < b.orders[id].remaining
    ensures WF(Shrink(b, id, quantity))
  {
    var b' := Shrink(b, id, quantity);
    forall s, p
      ensures LevelOK(b', s, p)
    {
      assert LevelOK(b, s, p);
    }
    forall x
      ensures OrderOK(b', x)
    {
      assert OrderOK(b, x);
    }
  }

  /** In a well-formed book matching never stops for a missing head order. */
  lemma HeadOfBest(b: Book, s: Side)
    requires WF(b) && Best(b, s).Some?
    ensures var p := Best(b, s).value;
            var q := Queue(b, s, p);
            q != [] && q[0] in b.orders && b.orders[q[0]].side == s && b.orders[q[0]].price == p
            && b.orders[q[0]].remaining > 0
  {
    var p := Best(b, s).value;
    assert LevelOK(b, s, p);
    assert Queue(b, s, p)[0] in Queue(b, s, p);
    assert OrderOK(b, Queue(b, s, p)[0]);
  }

  lemma FillKeeps(b: Book, t: Taker, remaining: nat)
    requires WF(b) && remaining > 0 && Best(b, Opposite(t.side)).Some?
    ensures (HeadOfBest(b, Opposite(t.side)); WF(HeadFill(b, t, remaining, Best(b, Opposite(t.side)).value).book))
  {
    HeadOfBest(b, Opposite(t.side));
    var maker := Queue(b, Opposite(t.side), Best(b, Opposite(t.side)).value)[0];
    if b.orders[maker].remaining <= remaining {
      RemoveKeeps(b, maker);
    } else {
      ShrinkKeeps(b, maker, remaining);
    }
  }

  lemma {:induction false} MatchKeeps(b: Book, t: Taker, remaining: nat)
    requires WF(b)
    ensures var m := Match(b, t, remaining);
            && WF(m.book) && m.remaining <= remaining && m.book.orders.Keys <= b.orders.Keys
            && SideOf(m.book, t.side) == SideOf(b, t.side)
    ensures var m, best := Match(b, t, remaining), Best(Match(b, t, remaining).book, Opposite(t.side));
            m.remaining > 0 && best.Some? ==>
              t.kind == Limit && if t.side == Buy then t.price < best.value else best.value < t.price
    decreases |b.orders|, remaining
  {
    if Best(b, Opposite(t.side)).Some? {
      HeadOfBest(b, Opposite(t.side));
    }
    if !Stops(b, t, remaining) {
      var price := Best(b, Opposite(t.side)).value;
      FillKeeps(b, t, remaining);
      FillShrinks(b, t, remaining, price);
      var h := HeadFill(b, t, remaining, price);
      MatchKeeps(h.book, t, h.remaining);
    }
  }

  // ---- Conservation ----

  ghost function Volume(log: seq<Event>): nat
  {
    if log == [] then 0
    else (if log[0].Trade? then log[0].quantity else 0) + Volume(log[1..])
  }

  /** What a resting order traded away in a log. */
  ghost function VolumeOf(log: seq<Event>, id: nat): nat
  {
    if log == [] then 0
    else (if log[0].Trade? && log[0].maker == id then log[0].quantity else 0) + VolumeOf(log[1..], id)
  }

  ghost function Holding(b: Book, id: nat): nat
  {
    if id in b.orders then b.orders[id].remaining else 0
  }

  lemma {:induction false} VolumeAdds(a: seq<Event>, b: seq<Event>, id: nat)
    ensures Volume(a + b) == Volume(a) + Volume(b)
    ensures VolumeOf(a + b, id) == VolumeOf(a, id) + VolumeOf(b, id)
  {
    if a == [] {
      assert a + b == b;
    } else {
      VolumeAdds(a[1..], b, id);
      assert (a + b)[1..] == a[1..] + b;
    }
  }

  /** The traded volume is what the taker got, and, order by order, what each maker lost. */
  lemma {:induction false} MatchConserves(b: Book, t: Taker, remaining: nat, id: nat)
    ensures var m := Match(b, t, remaining);
            && m.remaining <= remaining && Volume(m.log) == remaining - m.remaining
            && VolumeOf(m.log, id) == Holding(b, id) - Holding(m.book, id)
    decreases |b.orders|, remaining
  {
    if !Stops(b, t, remaining) {
      var price := Best(b, Opposite(t.side)).value;
      var h := HeadFill(b, t, remaining, price);
      FillShrinks(b, t, remaining, price);
      MatchConserves(h.book, t, h.remaining, id);
      VolumeAdds(h.log, Match(h.book, t, h.remaining).log, id);
      assert h.log[1..][1..] == [];
    }
  }

  // ---- Price-time priority ----

  /** The ids of one side in priority order: best price first, and within a price in queue order. */
  ghost function Priority(l: Ladder, s: Side): seq<nat>
    decreases |l|
  {
    if l == map[] then []
    else
      BestExists(l, s);
      var p :| IsBest(l, s, p);
      Smaller(l, p);
      l[p] + Priority(l - {p}, s)
  }

  /** Walk down a priority list, filling from each order in turn. */
  ghost function Sweep(orders: map<nat, Order>, ids: seq<nat>, t: Taker,
                       remaining: nat): (r: (seq<Event>, nat, seq<nat>))
  {
    if remaining == 0 || ids == [] || ids[0] !in orders
       || (t.kind == Limit && t.side == Buy && orders[ids[0]].price > t.price)
       || (t.kind == Limit && t.side == Sell && orders[ids[0]].price < t.price)
    then ([], remaining, ids)
    else
      var id, o := ids[0], orders[ids[0]];
      if o.remaining <= remaining then
        var rest := Sweep(orders, ids[1..], t, remaining - o.remaining);
        ([Trade(id, t.id, o.price, o.remaining), Update(id, Filled, 0)] + rest.0, rest.1, rest.2)
      else
        ([Trade(id, t.id, o.price, remaining), Update(id, PartiallyFilled, o.remaining - remaining)], 0, ids)
  }

  /** The priority list holds exactly the orders of the ladder, each once, best prices first. */
  lemma {:induction false} PriorityOrder(b: Book, l: Ladder, s: Side)
    requires WF(b) && forall p :: p in l ==> p in SideOf(b, s) && l[p] == SideOf(b, s)[p]
    ensures forall id :: id in Priority(l, s) ==> id in b.orders && b.orders[id].side == s && b.orders[id].price in l
    ensures var ids := Priority(l, s);
            forall i, j | 0 <= i < j < |ids| ::
              && ids[i] in b.orders && ids[j] in b.orders
              && ids[i] != ids[j]
              && (s == Buy ==> b.orders[ids[i]].price >= b.orders[ids[j]].price)
              && (s == Sell ==> b.orders[ids[i]].price <= b.orders[ids[j]].price)
    decreases |l|
  {
    if l != map[] {
      BestExists(l, s);
      var p :| IsBest(l, s, p);
      Smaller(l, p);
      var rest := l - {p};
      PriorityOrder(b, rest, s);
      assert LevelOK(b, s, p);
      BestUnique(l, s, p);
      var head, tail := l[p], Priority(rest, s);
      assert Priority(l, s) == head + tail;
      forall i, j | 0 <= i < j < |head + tail|
        ensures (head + tail)[i] in b.orders && (head + tail)[j] in b.orders && (head + tail)[i] != (head + tail)[j]
                && Better(s, b.orders[(head + tail)[i]].price, b.orders[(head + tail)[j]].price)
      {
        if j >= |head| {
          assert (head + tail)[j] == tail[j - |head|] && tail[j - |head|] in tail;
          if i < |head| {
            assert head[i] in head;
          } else {
            assert (head + tail)[i] == tail[i - |head|];
          }
        } else {
          assert head[i] in head && head[j] in head;
        }
      }
    }
  }

  lemma BestUnique(l: Ladder, s: Side, p: int)
    requires IsBest(l, s, p)
    ensures l != map[] && Priority(l, s) == l[p] + Priority(l - {p}, s)
  {
    assert p in l;
  }

  lemma {:induction false} SweepFrame(orders: map<nat, Order>, orders': map<nat, Order>, ids: seq<nat>, t: Taker,
                                      remaining: nat)
    requires forall id :: id in ids ==> (id in orders <==> id in orders')
    requires forall id :: id in ids && id in orders ==> orders'[id] == orders[id]
    ensures Sweep(orders', ids, t, remaining) == Sweep(orders, ids, t, remaining)
  {
    if ids != [] {
      assert ids[0] in ids;
      if ids[0] in orders && orders[ids[0]].remaining <= remaining {
        SweepFrame(orders, orders', ids[1..], t, remaining - orders[ids[0]].remaining);
      }
    }
  }

  lemma PriorityTail(l: Ladder, s: Side, p: int)
    requires IsBest(l, s, p) && l[p] != []
    ensures Priority(l, s) != [] && Priority(l, s)[0] == l[p][0]
    ensures Priority(Put(l, p, l[p][1..]), s) == Priority(l, s)[1..]
  {
    BestUnique(l, s, p);
    var rest := Put(l, p, l[p][1..]);
    if l[p][1..] != [] {
      BestUnique(rest, s, p);
      assert rest - {p} == l - {p};
    }
  }

  /**
   The price-time law: matching against the book is one walk down the priority list of the opposite
   side, with the same trades and updates, and what is left of the list is the priority list after.
   */
  lemma {:induction false} MatchIsSweep(b: Book, t: Taker, remaining: nat)
    requires WF(b)
    ensures var s, m := Opposite(t.side), Match(b, t, remaining);
            (m.log, m.remaining, Priority(SideOf(m.book, s), s))
            == Sweep(b.orders, Priority(SideOf(b, s), s), t, remaining)
    decreases |b.orders|, remaining
  {
    var s := Opposite(t.side);
    var l, ids := SideOf(b, s), Priority(SideOf(b, s), s);
    if Best(b, s).Some? {
      var p := Best(b, s).value;
      HeadOfBest(b, s);
      PriorityTail(l, s, p);
      if !Stops(b, t, remaining) {
        var h := HeadFill(b, t, remaining, p);
        FillKeeps(b, t, remaining);
        FillShrinks(b, t, remaining, p);
        MatchIsSweep(h.book, t, h.remaining);
        if b.orders[ids[0]].remaining <= remaining {
          PriorityOrder(b, l, s);
          assert SideOf(h.book, s) == Put(l, p, l[p][1..]);
          assert h.book.orders == b.orders - {ids[0]};
          assert ids[0] !in ids[1..];
          SweepFrame(b.orders, h.book.orders, ids[1..], t, h.remaining);
        } else {
          assert SideOf(h.book, s) == l;
          assert Stops(h.book, t, 0) && h.log + [] == h.log;
        }
      }
    }
  }

  // ---- The book is never crossed ----

  ghost predicate Uncrossed(b: Book)
  {
    forall p, q :: p in b.bids && q in b.asks ==> p < q
  }

  /** No trade is outside the taker's limit, and each is at the resting order's own price. */
  lemma {:induction false} TradesWithinLimit(b: Book, t: Taker, remaining: nat)
    requires WF(b)
    ensures forall e :: e in Match(b, t, remaining).log && e.Trade? ==>
              && e.taker == t.id && e.maker in b.orders && b.orders[e.maker].side != t.side
              && b.orders[e.maker].price == e.price && e.quantity > 0
              && (t.kind == Limit && t.side == Buy ==> e.price <= t.price)
              && (t.kind == Limit && t.side == Sell ==> e.price >= t.price)
    decreases |b.orders|, remaining
  {
    if !Stops(b, t, remaining) {
      var price := Best(b, Opposite(t.side)).value;
      HeadOfBest(b, Opposite(t.side));
      FillKeeps(b, t, remaining);
      FillShrinks(b, t, remaining, price);
      var h := HeadFill(b, t, remaining, price);
      TradesWithinLimit(h.book, t, h.remaining);
    }
  }

  lemma {:induction false} MatchOnlyRemovesLevels(b: Book, t: Taker, remaining: nat)
    requires WF(b)
    ensures forall s, p :: p in SideOf(Match(b, t, remaining).book, s) ==> p in SideOf(b, s)
    decreases |b.orders|, remaining
  {
    if !Stops(b, t, remaining) {
      var price := Best(b, Opposite(t.side)).value;
      HeadOfBest(b, Opposite(t.side));
      FillKeeps(b, t, remaining);
      FillShrinks(b, t, remaining, price);
      var h := HeadFill(b, t, remaining, price);
      MatchOnlyRemovesLevels(h.book, t, h.remaining);
      assert forall s, p :: p in SideOf(h.book, s) ==> p in SideOf(b, s);
    }
  }

  /** An incoming order of either kind leaves a well-formed uncrossed book so. */
  lemma ExecuteKeeps(b: Book, t: Taker, quantity: nat)
    requires WF(b) && Uncrossed(b) && t.id !in b.orders && quantity > 0
    ensures var r := Execute(b, t, quantity);
            WF(r.book) && Uncrossed(r.book) && r.book.orders.Keys <= b.orders.Keys + {t.id}
  {
    var m := Match(b, t, quantity);
    MatchKeeps(b, t, quantity);
    MatchOnlyRemovesLevels(b, t, quantity);
    assert forall p :: p in m.book.bids ==> p in SideOf(b, Buy);
    assert forall p :: p in m.book.asks ==> p in SideOf(b, Sell);
    if m.remaining > 0 && t.kind.Limit? {
      AddKeeps(m.book, t.id, Order(t.side, t.price, m.remaining));
    }
  }

  lemma RemoveKeepsUncrossed(b: Book, id: nat)
    requires WF(b) && Uncrossed(b) && id in b.orders
    ensures Uncrossed(Remove(b, id))
  {
    assert OrderOK(b, id);
    assert forall p :: p in Remove(b, id).bids ==> p in b.bids;
    assert forall p :: p in Remove(b, id).asks ==> p in b.asks;
  }

  // ---- Time priority under feed operations ----

  /** A reduction moves nobody: a partial one leaves every queue as it is, a full one only takes the order out. */
  lemma ReduceKeepsTimePriority(b: Book, id: nat, quantity: nat, s: Side, p: int)
    requires WF(b) && id in b.orders && 0 < quantity <= b.orders[id].remaining
    ensures var o, q := b.orders[id], Queue(b, s, p);
            Queue(Reduce(b, id, quantity), s, p)
            == if quantity == o.remaining && s == o.side && p == o.price then Without(q, id) else q
    ensures forall x :: x in b.orders && x != id ==>
              x in Reduce(b, id, quantity).orders && Reduce(b, id, quantity).orders[x] == b.orders[x]
    ensures Reduce(b, id, quantity).orders.Keys <= b.orders.Keys
    ensures id in Reduce(b, id, quantity).orders <==> quantity < b.orders[id].remaining
    ensures quantity < b.orders[id].remaining ==>
              var o := b.orders[id];
              Reduce(b, id, quantity).orders[id] == Order(o.side, o.price, o.remaining - quantity)
  {
    assert LevelOK(b, s, p) && OrderOK(b, id);
  }

  /** A replaced order loses its place: the new id is last in the queue of its new price. */
  lemma ReplaceGoesToTail(b: Book, id: nat, newId: nat, price: int, quantity: nat)
    requires WF(b) && id in b.orders && newId !in b.orders && quantity > 0
    ensures var side := b.orders[id].side;
            var b' := Add(Remove(b, id), newId, Order(side, price, quantity));
            && WF(b') && id !in b'.orders && b'.orders[newId] == Order(side, price, quantity)
            && Queue(b', side, price) == Queue(Remove(b, id), side, price) + [newId]
  {
    RemoveKeeps(b, id);
    AddKeeps(Remove(b, id), newId, Order(b.orders[id].side, price, quantity));
  }

  // ---- When a resting order crosses the book ----

  /** An order resting at this price would reach the best opposite price. */
  ghost predicate Reaches(b: Book, s: Side, price: int)
  {
    var best := Best(b, Opposite(s));
    best.Some? && if s.Buy? then price >= best.value else price <= best.value
  }

  /** Resting an order without matching crosses an uncrossed book exactly when it reaches the opposite side. */
  lemma AddUncrossedIff(b: Book, id: nat, o: Order)
    requires Uncrossed(b)
    ensures Uncrossed(Add(b, id, o)) <==> !Reaches(b, o.side, o.price)
  {
    var b' := Add(b, id, o);
    var best := Best(b, Opposite(o.side));
    assert SideOf(b', Opposite(o.side)) == SideOf(b, Opposite(o.side));
    assert forall p :: p in SideOf(b', o.side) <==> p in SideOf(b, o.side) || p == o.price;
    if Reaches(b, o.side, o.price) {
      if o.side.Buy? {
        assert o.price in b'.bids && best.value in b'.asks;
      } else {
        assert best.value in b'.bids && o.price in b'.asks;
      }
    }
  }

  lemma ReduceKeepsUncrossed(b: Book, id: nat, quantity: nat)
    requires WF(b) && Uncrossed(b) && id in b.orders && quantity <= b.orders[id].remaining
    ensures Uncrossed(Reduce(b, id, quantity))
  {
    if quantity == b.orders[id].remaining {
      RemoveKeepsUncrossed(b, id);
    }
  }
}
