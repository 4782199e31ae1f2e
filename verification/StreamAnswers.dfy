/** What each message of the stream means in plain terms: when it is taken, and what it does to the state. */
module StreamAnswers {
  import opened Machine
  import opened Itch50
  import opened Adapter
  import opened AdapterAnswers
  import opened Replicas
  import opened MoldUdp64
  import opened Pipelines
  import B = Books
  import L = BookLaws
  import O = MatchOutcomes

  /** A raw message is refused unless it has the size of its type, and means nothing for another instrument. */
  lemma RawMeans(r: Replica, s: Setting, m: Bytes)
    ensures |m| < 11 || |m| != ExpectedMessageSize(m[0]) ==> Meaning(r, s, m) == None
    ensures |m| >= 11 && |m| == ExpectedMessageSize(m[0]) ==>
              Meaning(r, s, m) == if (m[1] as int) * 256 + m[2] as int != s.locator then Some(r)
                                  else Follow(r, s.lim, s.grid, Fields(m))
  {
    hide Follow, Fields, ExpectedMessageSize;
  }

  /** Every level but this one stands as it did. */
  ghost predicate OthersStand(b: B.Book, b': B.Book, side: B.Side, price: int)
  {
    forall s, p :: s != side || p != price ==> B.Queue(b', s, p) == B.Queue(b, s, p)
  }

  /** The match is entered: a new one as a row of its own, counted when printable; a known one changes nothing. */
  ghost predicate Entered(r: Replica, r': Replica, k: nat, quantity: nat, printable: bool)
  {
    && r'.ledger == (if k in r.ledger then r.ledger else r.ledger[k := LedgerRow(quantity, printable, false)])
    && r'.volume == r.volume + (if k !in r.ledger && printable then quantity else 0)
  }

  /** A match can be entered: it is not busted if known, and if new there is room and the volume does not overflow. */
  predicate CanEnter(r: Replica, lim: Limits, k: nat, quantity: nat, printable: bool) {
    if k in r.ledger then !r.ledger[k].busted
    else k != 0 && |r.ledger| < lim.matches && (printable ==> r.volume + quantity <= U64_MAX)
  }

  /** An add is taken exactly on the grid, with a side, a size, a new number and room; it is last in its queue. */
  lemma AddMeans(r: Replica, lim: Limits, grid: seq<int>, m: ItchMessage)
    requires m.AddOrder?
    ensures var f := Follow(r, lim, grid, m);
            && (f.Some? <==> m.side.Some? && m.quantity > 0 && m.price > 0 && m.price in grid && 0 < m.id < U64_MAX
                             && m.id !in r.book.orders && |r.book.orders| < lim.orders)
            && (f.Some? ==>
                  var side, b := m.side.value, f.value.book;
                  && b.orders == r.book.orders[m.id := B.Order(side, m.price, m.quantity)]
                  && B.Queue(b, side, m.price) == B.Queue(r.book, side, m.price) + [m.id]
                  && OthersStand(r.book, b, side, m.price)
                  && f.value.ledger == r.ledger && f.value.volume == r.volume)
  {
  }

  /** The order has lost these shares and kept its place, or has left its queue with the last of them. */
  ghost predicate Loses(b: B.Book, b': B.Book, id: nat, quantity: nat)
  {
    && LosesShares(b.orders, b'.orders, id, quantity)
    && var o := b.orders[id];
       && OthersStand(b, b', o.side, o.price)
       && if quantity < o.remaining then B.Queue(b', o.side, o.price) == B.Queue(b, o.side, o.price)
          else Leaves(B.Queue(b, o.side, o.price), B.Queue(b', o.side, o.price), id)
  }

  /** The queue without this member, the others in their order. */
  ghost predicate Leaves(q: seq<nat>, q': seq<nat>, id: nat)
  {
    exists before, after :: q == before + [id] + after && q' == before + after
  }

  lemma ReduceLoses(b: B.Book, id: nat, quantity: nat)
    requires L.WF(b) && id in b.orders && 0 < quantity <= b.orders[id].remaining
    ensures Loses(b, B.Reduce(b, id, quantity), id, quantity)
  {
    if quantity == b.orders[id].remaining {
      O.RemoveOutcome(b, id);
    } else {
      assert B.Reduce(b, id, quantity).orders - {id} == b.orders - {id};
    }
  }

  /** An execution is taken exactly for shares the order has, under a match that can be entered. */
  lemma ExecutionMeans(r: Replica, lim: Limits, grid: seq<int>, m: ItchMessage)
    requires L.WF(r.book) && m.OrderExecuted?
    ensures var f, printable := Follow(r, lim, grid, m), !m.priced || m.flag == 'Y' as int;
            && (f.Some? <==> m.id in r.book.orders && 0 < m.quantity <= r.book.orders[m.id].remaining && m.matchId != 0
                             && (m.priced ==> m.price > 0 && (m.flag == 'Y' as int || m.flag == 'N' as int))
                             && CanEnter(r, lim, m.matchId, m.quantity, printable))
            && (f.Some? ==>
                  && Loses(r.book, f.value.book, m.id, m.quantity)
                  && Entered(r, f.value, m.matchId, m.quantity, printable))
  {
    hide L.WF, B.Reduce, Loses;
    if m.id in r.book.orders && 0 < m.quantity <= r.book.orders[m.id].remaining {
      ReduceLoses(r.book, m.id, m.quantity);
    }
  }

  /** A cancellation is taken exactly for shares the order has, a delete for a live order. */
  lemma WithdrawalMeans(r: Replica, lim: Limits, grid: seq<int>, m: ItchMessage)
    requires L.WF(r.book) && (m.OrderCancel? || m.OrderDelete?)
    ensures var f := Follow(r, lim, grid, m);
            && (f.Some? <==> m.id in r.book.orders
                             && (m.OrderCancel? ==> 0 < m.quantity <= r.book.orders[m.id].remaining))
            && (f.Some? ==>
                  && Loses(r.book, f.value.book, m.id,
                           if m.OrderCancel? then m.quantity else r.book.orders[m.id].remaining)
                  && f.value.ledger == r.ledger && f.value.volume == r.volume)
  {
    hide L.WF, Loses;
    if m.id in r.book.orders {
      var remaining := r.book.orders[m.id].remaining;
      assert L.OrderOK(r.book, m.id) by {
        HasShares(r.book, m.id);
      }
      ReduceLoses(r.book, m.id, remaining);
      if m.OrderCancel? && 0 < m.quantity <= remaining {
        ReduceLoses(r.book, m.id, m.quantity);
      }
    }
  }

  lemma HasShares(b: B.Book, id: nat)
    requires L.WF(b) && id in b.orders
    ensures L.OrderOK(b, id) && b.orders[id].remaining > 0
  {
    assert L.OrderOK(b, id);
  }

  /** A replacement is taken exactly for a live order, a new number, a size and a price on the grid; same side. */
  lemma ReplacementMeans(r: Replica, lim: Limits, grid: seq<int>, m: ItchMessage)
    requires L.WF(r.book) && m.OrderReplace?
    ensures var f := Follow(r, lim, grid, m);
            && (f.Some? <==> m.id in r.book.orders && 0 < m.newId < U64_MAX && m.newId !in r.book.orders
                             && m.quantity > 0 && m.price > 0 && m.price in grid)
            && (f.Some? ==>
                  var side, left, b := r.book.orders[m.id].side, B.Remove(r.book, m.id), f.value.book;
                  && Loses(r.book, left, m.id, r.book.orders[m.id].remaining)
                  && b.orders == left.orders[m.newId := B.Order(side, m.price, m.quantity)]
                  && B.Queue(b, side, m.price) == B.Queue(left, side, m.price) + [m.newId]
                  && OthersStand(left, b, side, m.price)
                  && f.value.ledger == r.ledger && f.value.volume == r.volume)
  {
    hide L.WF, Loses, B.Remove;
    if m.id in r.book.orders {
      HasShares(r.book, m.id);
      ReduceLoses(r.book, m.id, r.book.orders[m.id].remaining);
    }
  }

  /** A trade is taken exactly with a size, a price, a match number and, if no cross, a side; no book change. */
  lemma TradeMeans(r: Replica, lim: Limits, grid: seq<int>, m: ItchMessage)
    requires m.NonCrossTrade? || m.CrossTrade?
    ensures var f, quantity := Follow(r, lim, grid, m), if m.CrossTrade? then m.crossed else m.quantity;
            && (f.Some? <==> quantity > 0 && m.price > 0 && m.matchId != 0 && (m.NonCrossTrade? ==> m.side.Some?)
                             && CanEnter(r, lim, m.matchId, quantity, true))
            && (f.Some? ==> f.value.book == r.book && Entered(r, f.value, m.matchId, quantity, true))
  {
  }

  /** A broken trade is taken exactly for a known match that is not yet busted; shares and places do not come back. */
  lemma BreakMeans(r: Replica, lim: Limits, grid: seq<int>, m: ItchMessage)
    requires m.BrokenTrade?
    ensures var f, k := Follow(r, lim, grid, m), m.matchId;
            && (f.Some? <==> k in r.ledger && !r.ledger[k].busted)
            && (f.Some? ==>
                  && f.value.book == r.book && f.value.ledger == r.ledger[k := r.ledger[k].(busted := true)]
                  && f.value.volume == r.volume - (if r.ledger[k].printable then r.ledger[k].quantity else 0))
  {
  }
}
