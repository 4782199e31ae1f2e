/**
 The dense price-level book: an arena of nodes with a free list, intrusive FIFO queues per price
 level, occupancy bitmaps with cached best levels and an open-addressed id index, all kept in step
 with the abstract book `view.book`.
 */
module DenseBooks {
  import opened Collections
  import opened Machine
  import opened Books
  import opened Arenas
  import opened Occupancy
  import opened FixedOrderIndexes

  ghost function Steps(l: nat, tick: int): int {
    l * tick
  }

  /** The prices a book accepts, lowest first; none when the tick size is not positive. */
  ghost predicate IsGrid(grid: seq<int>, minimum: int, tick: int, count: nat)
  {
    if tick <= 0 then grid == []
    else |grid| == count && forall l {:trigger Steps(l, tick)} :: 0 <= l < |grid| ==>
      grid[l] == minimum + Steps(l, tick)
  }

  lemma MakeGrid(minimum: int, tick: int, count: nat) returns (grid: seq<int>)
    ensures IsGrid(grid, minimum, tick, count) && Increasing(grid) && |grid| <= count
  {
    if tick <= 0 {
      return [];
    }
    grid := seq(count, l requires 0 <= l < count => minimum + Steps(l, tick));
    forall a, b | 0 <= a < b < |grid|
      ensures grid[a] < grid[b]
    {
      StepsIncrease(a, b, tick);
    }
  }

  lemma StepsIncrease(a: nat, b: nat, tick: int)
    requires a < b && tick > 0
    ensures Steps(a, tick) < Steps(b, tick)
  {
    assert b * tick - a * tick == (b - a) * tick;
    assert (b - a) * tick > 0;
  }

  lemma StepsDivide(l: nat, tick: int)
    requires tick > 0
    ensures Steps(l, tick) % tick == 0 && Steps(l, tick) / tick == l
  {
    var x := l * tick;
    var q, r := x / tick, x % tick;
    assert (l - q) * tick == r;
    if l > q {
      Scaled(l - q, tick);
    } else if l < q {
      Scaled(q - l, tick);
      assert (l - q) * tick == -((q - l) * tick);
    }
  }

  lemma Scaled(d: int, tick: int)
    requires d >= 1 && tick > 0
    ensures d * tick >= tick
  {
    assert d * tick == (d - 1) * tick + tick;
  }

  lemma DivideSteps(delta: nat, tick: int)
    requires tick > 0 && delta % tick == 0
    ensures delta == Steps(delta / tick, tick)
  {
  }

  /** Bitmap words for a level count, in the 32-bit unsigned arithmetic of the source. */
  function WordCount(count: U32): nat {
    ((count + 63) % 0x1_0000_0000) / 64
  }

  /** The words cover every level exactly when rounding up does not wrap. */
  lemma WordsCoverIff(count: U32)
    ensures count <= 64 * WordCount(count) <==> count <= U32_MAX - 63
  {
  }

  predicate OffsetFits(minimum: int, price: int) {
    -I64_MAX - 1 <= price - minimum <= I64_MAX
  }

  /**
   The offset of every price at or above the minimum fits 64 bits exactly when the minimum is not
   negative; below zero the offset of the largest price is already out of range.
   */
  lemma OffsetFitsIff(minimum: I64)
    ensures (forall price: I64 :: price >= minimum ==> OffsetFits(minimum, price)) <==> minimum >= 0
    ensures minimum < 0 ==> !OffsetFits(minimum, I64_MAX)
  {
    if minimum < 0 {
      var price: I64 := I64_MAX;
      assert !OffsetFits(minimum, price);
    }
  }

  /** Price to level is the inverse of level to price, and rejects every price off the grid. */
  method PriceIndex(minimum: int, tick: int, count: nat, price: int, ghost grid: seq<int>) returns (r: Option<nat>)
    requires IsGrid(grid, minimum, tick, count)
    ensures r.Some? ==> r.value < |grid| && grid[r.value] == price
    ensures r == None ==> price !in grid
  {
    if tick <= 0 {
      return None;
    }
    forall l | 0 <= l < |grid|
      ensures grid[l] >= minimum && (grid[l] - minimum) % tick == 0 && (grid[l] - minimum) / tick == l
    {
      StepsDivide(l, tick);
      assert Steps(l, tick) >= 0;
    }
    if price < minimum {
      return None;
    }
    var delta := price - minimum;
    var index: nat;
    if tick == 1 {
      index := delta;
    } else {
      if delta % tick != 0 {
        return None;
      }
      index := delta / tick;
    }
    if index >= count {
      return None;
    }
    DivideSteps(delta, tick);
    return Some(index);
  }

  // ---- Bitmaps and cached best levels ----

  predicate Beats(s: Side, l: nat, m: nat) {
    if s.Buy? then m <= l else l <= m
  }

  /** The cached best level is the extreme marked level, or INVALID when nothing is marked. */
  ghost predicate BestOf(bits: seq<nat>, best: nat, s: Side)
  {
    && Words(bits)
    && (best == INVALID ==> forall l: nat :: !Marked(bits, l))
    && (best != INVALID ==> Marked(bits, best) && forall l: nat :: Marked(bits, l) ==> Beats(s, best, l))
  }

  /** A level is marked exactly when its queue is not empty. */
  ghost predicate MarksQueues(bits: seq<nat>, queues: seq<seq<nat>>, grid: seq<int>, s: Side)
  {
    && |queues| == 2 * |grid| && |grid| <= 64 * |bits|
    && forall l: nat {:trigger Marked(bits, l)} :: Marked(bits, l) <==> l < |grid| && queues[KeyOf(grid, s, l)] != []
  }

  lemma BestLevel(v: View, grid: seq<int>, loose: set<nat>, extra: set<nat>, bits: seq<nat>, best: nat, s: Side)
    requires Increasing(grid) && Sound(v, grid, loose, extra) && |grid| <= INVALID
    requires BestOf(bits, best, s) && MarksQueues(bits, v.queues, grid, s)
    ensures best == INVALID ==> Best(v.book, s) == None
    ensures best != INVALID ==>
              best < |grid| && v.queues[KeyOf(grid, s, best)] != [] && Best(v.book, s) == Some(grid[best])
  {
    var l := SideOf(v.book, s);
    forall p | p in l
      ensures best != INVALID && best < |grid| && Better(s, grid[best], p)
    {
      assert p in SideOf(v.book, s) && p in grid;
      var m :| 0 <= m < |grid| && grid[m] == p;
      LevelOccupied(v, grid, loose, extra, s, m);
      assert Marked(bits, m);
    }
    if best != INVALID {
      LevelOccupied(v, grid, loose, extra, s, best);
      BestIs(v.book, s, grid[best]);
    } else {
      assert forall p :: p !in l;
    }
  }

  /** A queue of the arena and the rung of the book at its price are empty together. */
  lemma LevelOccupied(v: View, grid: seq<int>, loose: set<nat>, extra: set<nat>, s: Side, l: nat)
    requires Sound(v, grid, loose, extra) && l < |grid|
    ensures var k := KeyOf(grid, s, l);
            && KeySide(grid, k) == s && KeyPrice(grid, k) == grid[l] && k < |v.queues|
            && (v.queues[k] != [] <==> grid[l] in SideOf(v.book, s))
  {
    var k := KeyOf(grid, s, l);
    assert RungAt(v, grid, k);
    assert |Queue(v.book, s, grid[l])| == |v.queues[k]|;
    assert grid[l] in SideOf(v.book, s) ==> SideOf(v.book, s)[grid[l]] != [];
  }

  // ---- How the heap holds the view ----

  ghost predicate NodesTied(nodes: array<Node>, view: seq<Node>)
    reads nodes
  {
    nodes[..] == view
  }

  ghost predicate LevelsTied(bids: array<PriceLevel>, asks: array<PriceLevel>, levels: seq<PriceLevel>, n: nat)
    reads bids, asks
  {
    && |levels| == 2 * n && n <= bids.Length && n <= asks.Length
    && bids[..n] == levels[..n] && asks[..n] == levels[n..]
  }

  ghost predicate IndexTied(index: FixedOrderIndex, at: map<nat, nat>)
    reads index, index.entries
  {
    index.Valid() && index.Contents == at
  }

  ghost predicate SideTied(bits: array<nat>, best: nat, queues: seq<seq<nat>>, grid: seq<int>, s: Side)
    reads bits
  {
    BestOf(bits[..], best, s) && MarksQueues(bits[..], queues, grid, s)
  }

  lemma FreeFacts(v: View, grid: seq<int>, loose: set<nat>, extra: set<nat>)
    requires Sound(v, grid, loose, extra)
    ensures FreeHead(v) == INVALID <==> v.freeList == []
  {
  }

  lemma AllocateFacts(v: View, grid: seq<int>, loose: set<nat>, extra: set<nat>)
    requires Sound(v, grid, loose, extra) && v.freeList != []
    ensures |v.owner| == |v.nodes| <= INVALID && v.freeList[0] < |v.nodes| && v.freeList[0] !in loose
    ensures v.nodes[v.freeList[0]].freeNext == FreeHead(Allocated(v))
  {
    assert v.owner[v.freeList[0]].Free?;
    assert v.nodes[v.freeList[0]].freeNext == After(v.freeList, 0);
  }

  lemma LooseFacts(v: View, grid: seq<int>, loose: set<nat>, extra: set<nat>, i: nat)
    requires Sound(v, grid, loose, extra) && i in loose
    ensures i < |v.nodes| == |v.owner| <= INVALID && v.owner[i].Loose? && |loose - {i}| == |loose| - 1
  {
    assert loose == (loose - {i}) + {i};
  }

  lemma DropFacts(v: View, grid: seq<int>, loose: set<nat>, extra: set<nat>, id: nat)
    requires Sound(v, grid, loose, extra) && id in extra && |extra| <= 2
    ensures id in v.at && |extra - {id}| <= 2 && Sound(v.(at := v.at - {id}), grid, loose, extra - {id})
  {
    assert extra == (extra - {id}) + {id};
    DropKeys(v.at, v.book.orders.Keys, extra, id);
    IndexEdit(v, v.at - {id}, grid, loose, extra, extra - {id});
  }

  lemma DropKeys(at: map<nat, nat>, orders: set<nat>, extra: set<nat>, id: nat)
    requires KeysOK(at.Keys, orders, extra) && id in extra
    ensures id in at && KeysOK((at - {id}).Keys, orders, extra - {id})
    ensures forall x :: x in orders ==> x in at - {id} && (at - {id})[x] == at[x]
  {
    assert (at - {id}).Keys == at.Keys - {id};
  }

  lemma TiedNode(nodes: array<Node>, view: seq<Node>, i: nat)
    requires NodesTied(nodes, view) && i < nodes.Length
    ensures i < |view| == nodes.Length && nodes[i] == view[i]
  {
  }

  class DensePriceOrderBook {
    const nodes: array<Node>
    const bids: array<PriceLevel>
    const asks: array<PriceLevel>
    const bidBits: array<nat>
    const askBits: array<nat>
    const index: FixedOrderIndex
    const minimumPrice: int
    const tickSize: int
    const levelCount: nat
    ghost const grid: seq<int>
    var free: nat
    var active: nat
    var bestBid: nat
    var bestAsk: nat
    ghost var view: View

    ghost function Repr(): set<object> {
      {this, nodes, bids, asks, bidBits, askBits, index, index.entries}
    }

    /** The arrays do not alias. */
    ghost predicate Separate()
    {
      var e: object, n: object, b: object, a: object := index.entries, nodes, bids, asks;
      var bb: object, ab: object := bidBits, askBits;
      && e != n && e != b && e != a && e != bb && e != ab
      && n != b && n != a && n != bb && n != ab && b != a && b != bb && b != ab && a != bb && a != ab && bb != ab
    }

    /** The constant geometry. */
    ghost predicate Fixed()
    {
      && nodes.Length <= INVALID && Separate()
      && IsGrid(grid, minimumPrice, tickSize, levelCount) && Increasing(grid)
      && |grid| <= levelCount == bids.Length == asks.Length && levelCount <= INVALID
      && |grid| <= 64 * bidBits.Length && |grid| <= 64 * askBits.Length
      && 8 <= index.entries.Length && 4 * nodes.Length <= index.entries.Length
    }

    ghost predicate Inv(loose: set<nat>, extra: set<nat>)
      reads this, nodes, bids, asks, bidBits, askBits, index, index.entries
    {
      && Fixed() && Sound(view, grid, loose, extra)
      && NodesTied(nodes, view.nodes) && LevelsTied(bids, asks, view.levels, |grid|) && IndexTied(index, view.at)
      && SideTied(bidBits, bestBid, view.queues, grid, Buy) && SideTied(askBits, bestAsk, view.queues, grid, Sell)
      && free == FreeHead(view) && active == |view.book.orders| + |loose|
      && |extra| <= 2 && U64_MAX !in view.at && (forall id :: id in view.at ==> view.at[id] < nodes.Length)
    }

    ghost predicate Valid()
      reads this, nodes, bids, asks, bidBits, askBits, index, index.entries
    {
      Inv({}, {})
    }

    constructor (orderCapacity: nat, minimumPrice: int, tickSize: int, levelCount: U32, hash: nat -> nat)
      requires orderCapacity < U32_MAX && levelCount <= U32_MAX - 63
      ensures Valid() && view.book == EMPTY && nodes.Length == orderCapacity
      ensures IsGrid(grid, minimumPrice, tickSize, levelCount)
      ensures fresh(nodes) && fresh(bids) && fresh(asks) && fresh(bidBits) && fresh(askBits) && fresh(index)
      ensures fresh(index.entries)
    {
      hide Sound, FixedOrderIndex.Valid, SideTied, LevelsTied, IsGrid, Increasing;
      var arena := FreeNodes(orderCapacity);
      WordsCoverIff(levelCount);
      var bidLevels, bidWords := EmptySide(levelCount);
      var askLevels, askWords := EmptySide(levelCount);
      nodes, bids, asks, bidBits, askBits := arena, bidLevels, askLevels, bidWords, askWords;
      index := new FixedOrderIndex(orderCapacity, hash);
      this.minimumPrice, this.tickSize, this.levelCount := minimumPrice, tickSize, levelCount;
      var prices := MakeGrid(minimumPrice, tickSize, levelCount);
      grid := prices;
      free := if orderCapacity == 0 then INVALID else 0;
      active, bestBid, bestAsk := 0, INVALID, INVALID;
      new;
      view := Initial(nodes[..], grid);
      InitialSound(nodes[..], grid);
      InitialLevels(bids, asks, grid, nodes[..]);
      InitialBest(bidBits, grid, nodes[..], Buy);
      InitialBest(askBits, grid, nodes[..], Sell);
    }

    // ---- Price levels and bitmaps ----

    method LevelAt(side: Side, level: nat) returns (lvl: PriceLevel)
      requires level < |grid| && LevelsTied(bids, asks, view.levels, |grid|)
      ensures lvl == view.levels[KeyOf(grid, side, level)]
    {
      assert bids[level] == bids[..|grid|][level] && asks[level] == asks[..|grid|][level];
      lvl := if side.Buy? then bids[level] else asks[level];
    }

    method WriteNode(i: nat, node: Node, ghost ns: seq<Node>)
      requires i < nodes.Length && NodesTied(nodes, ns)
      modifies nodes
      ensures NodesTied(nodes, ns[i := node])
    {
      nodes[i] := node;
    }

    method PutLevelAt(side: Side, level: nat, lvl: PriceLevel, ghost levels: seq<PriceLevel>)
      requires level < |grid| && bids != asks && LevelsTied(bids, asks, levels, |grid|)
      modifies bids, asks
      ensures LevelsTied(bids, asks, levels[KeyOf(grid, side, level) := lvl], |grid|)
    {
      ghost var n := |grid|;
      ghost var levels' := levels[KeyOf(grid, side, level) := lvl];
      if side.Buy? {
        ghost var was := bids[..n];
        bids[level] := lvl;
        assert bids[..n] == was[level := lvl];
        assert levels'[..n] == levels[..n][level := lvl] && levels'[n..] == levels[n..];
      } else {
        ghost var was := asks[..n];
        asks[level] := lvl;
        assert asks[..n] == was[level := lvl];
        assert levels'[..n] == levels[..n] && levels'[n..] == levels[n..][level := lvl];
      }
    }

    /** Mark the level of a queue that has just become `q`, and improve the cached best level. */
    method SetOccupied(side: Side, level: nat, ghost queues: seq<seq<nat>>, ghost q: seq<nat>)
      requires bidBits != askBits && level < |grid| <= INVALID && q != []
      requires SideTied(bidBits, bestBid, queues, grid, Buy) && SideTied(askBits, bestAsk, queues, grid, Sell)
      modifies this`bestBid, this`bestAsk, bidBits, askBits
      ensures SideTied(bidBits, bestBid, queues[KeyOf(grid, side, level) := q], grid, Buy)
      ensures SideTied(askBits, bestAsk, queues[KeyOf(grid, side, level) := q], grid, Sell)
    {
      if side.Buy? {
        Mark(bidBits, level);
        assert Marked(bidBits[..], level);
        if bestBid == INVALID || level > bestBid {
          bestBid := level;
        }
      } else {
        Mark(askBits, level);
        assert Marked(askBits[..], level);
        if bestAsk == INVALID || level < bestAsk {
          bestAsk := level;
        }
      }
    }

    /** Unmark the level of a queue that has just become empty; rescan if it was the best. */
    method ClearOccupied(side: Side, level: nat, ghost queues: seq<seq<nat>>)
      requires bidBits != askBits && level < |grid| <= INVALID
      requires SideTied(bidBits, bestBid, queues, grid, Buy) && SideTied(askBits, bestAsk, queues, grid, Sell)
      modifies this`bestBid, this`bestAsk, bidBits, askBits
      ensures SideTied(bidBits, bestBid, queues[KeyOf(grid, side, level) := []], grid, Buy)
      ensures SideTied(askBits, bestAsk, queues[KeyOf(grid, side, level) := []], grid, Sell)
    {
      if side.Buy? {
        Unmark(bidBits, level);
        if bestBid == level {
          var found := FindBest(bidBits, true);
          bestBid := if found == None then INVALID else found.value;
        }
      } else {
        Unmark(askBits, level);
        if bestAsk == level {
          var found := FindBest(askBits, false);
          bestAsk := if found == None then INVALID else found.value;
        }
      }
    }

    // ---- Allocation ----

    /** Pop a free node; INVALID when all are in use. */
    method Allocate(ghost loose: set<nat>, ghost extra: set<nat>) returns (i: nat)
      requires Inv(loose, extra)
      modifies this`free, this`active, this`view, nodes
      ensures i == INVALID <==> old(view.freeList) == []
      ensures i == INVALID ==> Inv(loose, extra) && view == old(view)
      ensures i != INVALID ==>
                && i == old(view.freeList)[0] < nodes.Length && i !in loose
                && view == Allocated(old(view)) && Inv(loose + {i}, extra)
    {
      hide Sound, FixedOrderIndex.Valid, IndexTied, SideTied, LevelsTied, IsGrid, Increasing;
      FreeFacts(view, grid, loose, extra);
      if free == INVALID {
        return INVALID;
      }
      i := free;
      ghost var v := view;
      AllocateFacts(v, grid, loose, extra);
      AllocateKeeps(v, grid, loose, extra);
      free := nodes[i].freeNext;
      nodes[i] := BLANK;
      active := active + 1;
      view := Allocated(v);
    }

    /** Push a node back onto the free list. */
    method ReleaseWithoutIndex(i: nat, ghost loose: set<nat>, ghost extra: set<nat>)
      requires Inv(loose, extra) && i in loose && i < nodes.Length
      modifies this`free, this`active, this`view, nodes
      ensures view == Released(old(view), i) && Inv(loose - {i}, extra)
    {
      hide Sound, FixedOrderIndex.Valid, IndexTied, SideTied, LevelsTied, IsGrid, Increasing;
      ghost var v := view;
      LooseFacts(v, grid, loose, extra, i);
      ReleaseKeeps(v, grid, i, loose, extra);
      assert loose == (loose - {i}) + {i};
      nodes[i] := nodes[i].(freeNext := free);
      free := i;
      active := active - 1;
      view := Released(v, i);
    }

    method Release(i: nat, ghost loose: set<nat>, ghost extra: set<nat>)
      requires Inv(loose, extra) && i in loose && i < nodes.Length && nodes[i].id in extra
      modifies this`free, this`active, this`view, nodes, index, index.entries
      ensures Inv(loose - {i}, extra - {old(nodes[i].id)})
      ensures view.book == old(view.book) && view.at == old(view.at) - {old(nodes[i].id)}
      ensures forall j :: 0 <= j < nodes.Length && j != i ==> nodes[j] == old(nodes[j])
    {
      DropIndex(nodes[i].id, loose, extra);
      ReleaseWithoutIndex(i, loose, extra - {nodes[i].id});
    }

    /** The index never fills: it has four slots per node and at most two keys beyond the orders. */
    lemma IndexHasRoom(loose: set<nat>, extra: set<nat>)
      requires Inv(loose, extra)
      ensures |index.Contents| < index.entries.Length
    {
      assert |view.at.Keys| == |view.book.orders.Keys + extra| <= |view.book.orders.Keys| + |extra|;
      assert |view.book.orders| <= |view.nodes|;
    }

    /** Remove an id that is not an order of the book from the index. */
    method DropIndex(id: nat, ghost loose: set<nat>, ghost extra: set<nat>)
      requires Inv(loose, extra) && id in extra
      modifies this`view, index, index.entries
      ensures Inv(loose, extra - {id}) && view == old(view).(at := old(view).at - {id})
    {
      hide Sound, FixedOrderIndex.Valid, NodesTied, SideTied, LevelsTied, IsGrid, Increasing;
      ghost var v := view;
      IndexHasRoom(loose, extra);
      DropFacts(v, grid, loose, extra, id);
      var erased := index.Erase(id);
      view := v.(at := v.at - {id});
    }

    /** Index a new id for node `i`. */
    method IndexNew(id: nat, i: nat, ghost loose: set<nat>, ghost extra: set<nat>)
      requires Inv(loose, extra) && id != 0 && id != U64_MAX && id !in view.at && i < nodes.Length && |extra| <= 1
      modifies this`view, index, index.entries
      ensures Inv(loose, extra + {id}) && view == old(view).(at := old(view).at[id := i])
    {
      hide Sound, FixedOrderIndex.Valid, NodesTied, SideTied, LevelsTied, IsGrid, Increasing;
      ghost var v := view;
      IndexHasRoom(loose, extra);
      IndexFacts(v, grid, loose, extra, id, i);
      var inserted := index.Insert(id, i);
      view := v.(at := v.at[id := i]);
    }

    // ---- Queues ----

    /** Point the loose node back at the tail of its level, and the tail at it. */
    method LinkTail(i: nat, lvl: PriceLevel, ghost ns: seq<Node>)
      requires NodesTied(nodes, ns) && i < nodes.Length <= INVALID
      requires lvl.tail == INVALID || (lvl.tail < nodes.Length && lvl.tail != i)
      modifies nodes
      ensures NodesTied(nodes, Linked(ns, lvl, i))
    {
      nodes[i] := nodes[i].(previous := lvl.tail);
      if lvl.tail != INVALID {
        nodes[lvl.tail] := nodes[lvl.tail].(next := i);
      }
    }

    /** Append a loose, indexed and filled-in node at the tail of its level. */
    method Append(i: nat, ghost loose: set<nat>, ghost extra: set<nat>)
      requires Inv(loose, extra) && i in loose && i < nodes.Length && nodes[i].level < |grid|
      requires Appendable(view, grid, i, KeyOf(grid, nodes[i].side, nodes[i].level), extra)
      modifies this`view, this`bestBid, this`bestAsk, nodes, bids, asks, bidBits, askBits
      ensures var o := old(nodes[i]);
              && Inv(loose - {i}, extra - {o.id})
              && view.book == Add(old(view.book), o.id, Order(o.side, o.price, o.remaining))
    {
      hide Sound, FixedOrderIndex.Valid, IndexTied, SideTied, LevelsTied, NodesTied, IsGrid, Increasing;
      ghost var v := view;
      var o := nodes[i];
      ghost var k := KeyOf(grid, o.side, o.level);
      TiedNode(nodes, v.nodes, i);
      AppendStep(v, grid, loose, extra, i, k);
      var lvl := LevelAt(o.side, o.level);
      LinkTail(i, lvl, v.nodes);
      var head := if lvl.tail == INVALID then i else lvl.head;
      PutLevelAt(o.side, o.level, PriceLevel(head, i, lvl.total + o.remaining), v.levels);
      view := Appended(v, i, k);
      SetOccupied(o.side, o.level, v.queues, v.queues[k] + [i]);
    }

    /** Join the neighbours of a node to each other. */
    method Relink(i: nat, ghost ns: seq<Node>)
      requires NodesTied(nodes, ns) && i < nodes.Length <= INVALID
      requires var o := nodes[i];
               && (o.previous == INVALID || o.previous < nodes.Length) && (o.next == INVALID || o.next < nodes.Length)
               && o.previous != i && o.next != i && (o.previous != o.next || o.previous == INVALID)
      modifies nodes
      ensures NodesTied(nodes, Detached(ns, i))
    {
      var o := nodes[i];
      if o.previous != INVALID {
        nodes[o.previous] := nodes[o.previous].(next := o.next);
      }
      if o.next != INVALID {
        nodes[o.next] := nodes[o.next].(previous := o.previous);
      }
      nodes[i] := nodes[i].(previous := INVALID, next := INVALID);
    }

    /** Take a listed node out of its level, wherever it stands in the queue. */
    method Unlink(i: nat, ghost loose: set<nat>, ghost extra: set<nat>)
      requires Inv(loose, extra) && i < nodes.Length && i < |view.owner| && view.owner[i].Listed? && |extra| <= 1
      modifies this`view, this`bestBid, this`bestAsk, nodes, bids, asks, bidBits, askBits
      ensures Departed(old(view), view, i) && Inv(loose + {i}, extra + {old(nodes[i].id)})
    {
      hide Sound, FixedOrderIndex.Valid, IndexTied, SideTied, LevelsTied, NodesTied, IsGrid, Increasing,
           Unlinked, Unlinkable, Departed, Detached, Remove;
      ghost var v := view;
      var o := nodes[i];
      ghost var k := v.owner[i].key;
      TiedNode(nodes, v.nodes, i);
      UnlinkStep(v, grid, loose, extra, i, k);
      var lvl := LevelAt(o.side, o.level);
      Relink(i, v.nodes);
      var head := if o.previous == INVALID then o.next else lvl.head;
      var tail := if o.next == INVALID then o.previous else lvl.tail;
      PutLevelAt(o.side, o.level, PriceLevel(head, tail, lvl.total - o.remaining), v.levels);
      view := Unlinked(v, i, k);
      if head == INVALID {
        ClearOccupied(o.side, o.level, v.queues);
      } else {
        StillOccupied(bidBits, askBits, bestBid, bestAsk, v.queues, view.queues, grid, k);
      }
    }

    /** The matching loop's shorter form, for a filled order at the head of its level. */
    method RelinkHead(i: nat, ghost ns: seq<Node>)
      requires NodesTied(nodes, ns) && i < nodes.Length <= INVALID && nodes[i].previous == INVALID
      requires (nodes[i].next == INVALID || nodes[i].next < nodes.Length) && nodes[i].next != i
      modifies nodes
      ensures NodesTied(nodes, Detached(ns, i))
    {
      var next := nodes[i].next;
      if next != INVALID {
        nodes[next] := nodes[next].(previous := INVALID);
      }
      nodes[i] := nodes[i].(previous := INVALID, next := INVALID);
    }

    method UnlinkFilled(i: nat, ghost loose: set<nat>, ghost extra: set<nat>)
      requires Inv(loose, extra) && i < nodes.Length && i < |view.owner| && view.owner[i].Listed? && |extra| <= 1
      requires nodes[i].remaining == 0 && nodes[i].previous == INVALID
      modifies this`view, this`bestBid, this`bestAsk, nodes, bids, asks, bidBits, askBits
      ensures Departed(old(view), view, i) && Inv(loose + {i}, extra + {old(nodes[i].id)})
    {
      hide Sound, FixedOrderIndex.Valid, IndexTied, SideTied, LevelsTied, NodesTied, IsGrid, Increasing,
           Unlinked, Unlinkable, Departed, Detached, Remove;
      ghost var v := view;
      var o := nodes[i];
      ghost var k := v.owner[i].key;
      TiedNode(nodes, v.nodes, i);
      UnlinkStep(v, grid, loose, extra, i, k);
      var lvl := LevelAt(o.side, o.level);
      RelinkHead(i, v.nodes);
      var tail := if o.next != INVALID then lvl.tail else INVALID;
      PutLevelAt(o.side, o.level, PriceLevel(o.next, tail, lvl.total), v.levels);
      view := Unlinked(v, i, k);
      if o.next == INVALID {
        ClearOccupied(o.side, o.level, v.queues);
      } else {
        StillOccupied(bidBits, askBits, bestBid, bestAsk, v.queues, view.queues, grid, k);
      }
    }

    /** Rewrite a node that is in no queue. */
    method SetLoose(i: nat, node: Node, ghost loose: set<nat>, ghost extra: set<nat>)
      requires Inv(loose, extra) && i in loose && i < nodes.Length
      modifies this`view, nodes
      ensures Inv(loose, extra) && view == old(view).(nodes := old(view).nodes[i := node])
    {
      hide Sound, FixedOrderIndex.Valid, IndexTied, SideTied, LevelsTied, NodesTied, IsGrid, Increasing;
      LooseFacts(view, grid, loose, extra, i);
      LooseEdit(view, grid, i, node, loose, extra);
      WriteNode(i, node, view.nodes);
      view := view.(nodes := view.nodes[i := node]);
    }

    /** Lower the remaining quantity of a listed node and the total of its level. */
    method ReduceAt(i: nat, quantity: nat, ghost loose: set<nat>, ghost extra: set<nat>)
      requires Inv(loose, extra) && i < nodes.Length && i < |view.owner| && view.owner[i].Listed?
      requires quantity <= nodes[i].remaining
      modifies this`view, nodes, bids, asks
      ensures Shrinkable(old(view), i, old(view).owner[i].key, quantity)
      ensures view == Shrunk(old(view), i, old(view).owner[i].key, quantity) && Inv(loose, extra)
    {
      hide Sound, FixedOrderIndex.Valid, IndexTied, SideTied, LevelsTied, NodesTied, IsGrid, Increasing;
      ghost var v := view;
      var o := nodes[i];
      ghost var k := v.owner[i].key;
      TiedNode(nodes, v.nodes, i);
      ShrinkStep(v, grid, loose, extra, i, k, quantity);
      var lvl := LevelAt(o.side, o.level);
      WriteNode(i, o.(remaining := o.remaining - quantity), v.nodes);
      PutLevelAt(o.side, o.level, lvl.(total := lvl.total - quantity), v.levels);
      view := Shrunk(v, i, k, quantity);
    }

    // ---- Matching ----

    lemma BestLevelOf(s: Side, loose: set<nat>, extra: set<nat>)
      requires Inv(loose, extra)
      ensures var best := if s.Sell? then bestAsk else bestBid;
              && (best == INVALID ==> Best(view.book, s) == None)
              && (best != INVALID ==> best < |grid| && Best(view.book, s) == Some(grid[best]))
    {
      if s.Sell? {
        BestLevel(view, grid, loose, extra, askBits[..], bestAsk, Sell);
      } else {
        BestLevel(view, grid, loose, extra, bidBits[..], bestBid, Buy);
      }
    }

    method LevelPrice(level: nat) returns (price: int)
      requires Fixed() && level < |grid|
      ensures price == grid[level]
    {
      assert grid[level] == minimumPrice + Steps(level, tickSize);
      price := minimumPrice + level * tickSize;
    }

    /** Move a traded quantity from the taker and the order at the head of a level. */
    method TakeFrom(taker: nat, maker: nat, quantity: nat)
      requires taker < nodes.Length && Inv({taker}, {nodes[taker].id}) && quantity <= nodes[taker].remaining
      requires maker < nodes.Length && maker < |view.owner| && view.owner[maker].Listed?
      requires quantity <= nodes[maker].remaining
      modifies this`view, nodes, bids, asks
      ensures var t, m := old(nodes[taker]), old(nodes[maker]);
              && maker != taker && Inv({taker}, {t.id}) && m.id in old(view).book.orders
              && old(view).book.orders[m.id].remaining == m.remaining
              && view.book == Shrink(old(view).book, m.id, quantity)
              && view.owner == old(view).owner && view.at == old(view).at
              && nodes[taker] == t.(remaining := t.remaining - quantity)
              && nodes[maker] == m.(remaining := m.remaining - quantity)
    {
      hide Sound, FixedOrderIndex.Valid, IndexTied, SideTied, LevelsTied, NodesTied, IsGrid, Increasing;
      ghost var v := view;
      TiedNode(nodes, v.nodes, taker);
      TiedNode(nodes, v.nodes, maker);
      LooseFacts(v, grid, {taker}, {nodes[taker].id}, taker);
      ListedNode(v, grid, {taker}, {nodes[taker].id}, maker, v.owner[maker].key);
      SetLoose(taker, nodes[taker].(remaining := nodes[taker].remaining - quantity), {taker}, {nodes[taker].id});
      TiedNode(nodes, view.nodes, taker);
      TiedNode(nodes, view.nodes, maker);
      ReduceAt(maker, quantity, {taker}, {nodes[taker].id});
      TiedNode(nodes, view.nodes, taker);
      TiedNode(nodes, view.nodes, maker);
    }

    /** Remove a filled order from the head of its level, the index and the arena. */
    method Retire(maker: nat, taker: nat)
      requires taker < nodes.Length && maker < nodes.Length && taker != maker && Inv({taker}, {nodes[taker].id})
      requires maker < |view.owner| && view.owner[maker].Listed? && nodes[maker].remaining == 0
      requires nodes[maker].previous == INVALID
      modifies this`view, this`free, this`active, this`bestBid, this`bestAsk
      modifies nodes, bids, asks, bidBits, askBits, index, index.entries
      ensures nodes[taker] == old(nodes[taker]) && Inv({taker}, {nodes[taker].id})
      ensures old(nodes[maker].id) in old(view).book.orders && view.book == Remove(old(view).book, old(nodes[maker].id))
      ensures view.at == old(view).at - {old(nodes[maker].id)} && old(nodes[maker].id) != nodes[taker].id
    {
      hide Sound, FixedOrderIndex.Valid, IndexTied, SideTied, LevelsTied, NodesTied, IsGrid, Increasing,
           Unlinked, Unlinkable, Detached, Remove;
      ghost var v := view;
      ghost var id, tid := nodes[maker].id, nodes[taker].id;
      TiedNode(nodes, v.nodes, taker);
      TiedNode(nodes, v.nodes, maker);
      LooseFacts(v, grid, {taker}, {tid}, taker);
      NotExtra(v, grid, {taker}, {tid}, maker);
      UnlinkFilled(maker, {taker}, {tid});
      TiedNode(nodes, view.nodes, taker);
      TiedNode(nodes, view.nodes, maker);
      Release(maker, {taker} + {maker}, {tid} + {id});
      assert {taker} + {maker} - {maker} == {taker} && {tid} + {id} - {id} == {tid};
    }

    /** One fill of the taker against the order at the head of a level of the opposite side. */
    method FillHead(taker: nat, level: nat, price: int, ghost kind: OrderType) returns (log: seq<Event>)
      requires taker < nodes.Length && Inv({taker}, {nodes[taker].id}) && nodes[taker].remaining > 0
      requires level < |grid| && price == grid[level]
      requires KeyOf(grid, Opposite(nodes[taker].side), level) < |view.queues|
      requires view.queues[KeyOf(grid, Opposite(nodes[taker].side), level)] != []
      modifies this`view, this`free, this`active, this`bestBid, this`bestAsk
      modifies nodes, bids, asks, bidBits, askBits, index, index.entries
      ensures var b, t := old(view).book, old(nodes[taker]);
              var q := Queue(b, Opposite(t.side), price);
              && q != [] && q[0] in b.orders && q[0] != t.id
              && view.at.Keys >= old(view).at.Keys - {q[0]}
              && (forall id :: id in view.at ==> id in old(view).at && view.at[id] == old(view).at[id])
              && nodes[taker] == t.(remaining := nodes[taker].remaining) && Inv({taker}, {t.id})
              && Outcome(view.book, nodes[taker].remaining, log) == HeadFill(b, Taker(t.id, t.side, kind, t.price),
                                                                             t.remaining, price)
    {
      hide Sound, FixedOrderIndex.Valid, IndexTied, SideTied, LevelsTied, NodesTied, IsGrid, Increasing,
           Unlinked, Unlinkable, Detached, Remove;
      ghost var v := view;
      var t := nodes[taker];
      TiedNode(nodes, v.nodes, taker);
      HeadFacts(v, grid, {taker}, {t.id}, Opposite(t.side), level);
      var lvl := LevelAt(Opposite(t.side), level);
      var maker := lvl.head;
      TiedNode(nodes, v.nodes, maker);
      var m := nodes[maker];
      var quantity := if t.remaining < m.remaining then t.remaining else m.remaining;
      TakeFrom(taker, maker, quantity);
      log := [Trade(m.id, t.id, price, quantity)];
      if nodes[maker].remaining == 0 {
        log := log + [Update(m.id, Filled, 0)];
        RemoveAfterShrink(v.book, m.id, quantity);
        Retire(maker, taker);
      } else {
        log := log + [Update(m.id, PartiallyFilled, nodes[maker].remaining)];
      }
    }

    /** The taker's node, in no queue, indexed, and as `o` but for what has been filled. */
    ghost predicate Taking(taker: nat, o: Node)
      reads this, nodes, bids, asks, bidBits, askBits, index, index.entries
    {
      && taker < nodes.Length && Inv({taker}, {o.id}) && nodes[taker] == o.(remaining := nodes[taker].remaining)
      && o.id in view.at && view.at[o.id] == taker
    }

    /** The inner matching loop: fill the taker from one level until either is exhausted. */
    method MatchLevel(taker: nat, level: nat, price: int, ghost o: Node, ghost kind: OrderType)
      returns (log: seq<Event>)
      requires Taking(taker, o) && nodes[taker].remaining != 0 && level < |grid| && price == grid[level]
      requires Best(view.book, Opposite(o.side)) == Some(price)
      requires Crosses(Taker(o.id, o.side, kind, o.price), price)
      modifies this`view, this`free, this`active, this`bestBid, this`bestAsk
      modifies nodes, bids, asks, bidBits, askBits, index, index.entries
      ensures Taking(taker, o)
      ensures var t := Taker(o.id, o.side, kind, o.price);
              Books.Match(old(view).book, t, old(nodes[taker].remaining))
              == Resume(log, Books.Match(view.book, t, nodes[taker].remaining))
      ensures |view.book.orders| <= |old(view).book.orders| && nodes[taker].remaining <= old(nodes[taker].remaining)
      ensures |view.book.orders| < |old(view).book.orders| || nodes[taker].remaining < old(nodes[taker].remaining)
    {
      hide Sound, FixedOrderIndex.Valid, IndexTied, SideTied, LevelsTied, NodesTied, IsGrid, Increasing,
           Books.Match, HeadFill, Best;
      ghost var t := Taker(o.id, o.side, kind, o.price);
      ghost var size, left := |view.book.orders|, nodes[taker].remaining;
      ghost var whole := Books.Match(view.book, t, left);
      var side := Opposite(nodes[taker].side);
      log := [];
      LevelHead(view, grid, {taker}, {o.id}, side, level);
      var lvl := LevelAt(side, level);
      while nodes[taker].remaining != 0 && lvl.head != INVALID
        invariant Taking(taker, o)
        invariant whole == Resume(log, Books.Match(view.book, t, nodes[taker].remaining))
        invariant KeyOf(grid, side, level) < |view.queues|
        invariant lvl.head == INVALID <==> view.queues[KeyOf(grid, side, level)] == []
        invariant lvl.head != INVALID ==> Best(view.book, side) == Some(price)
        invariant |view.book.orders| <= size && nodes[taker].remaining <= left
        invariant |view.book.orders| == size && nodes[taker].remaining == left ==> lvl.head != INVALID
        decreases |view.book.orders|, nodes[taker].remaining
      {
        ghost var b, r := view.book, nodes[taker].remaining;
        var fill := FillHead(taker, level, price, kind);
        FillSurvives(b, t, r, price);
        MatchUnfolds(b, t, r, price);
        LevelHead(view, grid, {taker}, {o.id}, side, level);
        log := log + fill;
        lvl := LevelAt(side, level);
      }
    }

    /** The outer matching loop: the best opposite level the taker reaches, until there is none. */
    method Match(taker: nat, kind: OrderType) returns (log: seq<Event>)
      requires taker < nodes.Length && Taking(taker, nodes[taker])
      modifies this`view, this`free, this`active, this`bestBid, this`bestAsk
      modifies nodes, bids, asks, bidBits, askBits, index, index.entries
      ensures var o := old(nodes[taker]);
              && Taking(taker, o)
              && Outcome(view.book, nodes[taker].remaining, log)
                 == Books.Match(old(view).book, Taker(o.id, o.side, kind, o.price), o.remaining)
    {
      hide Inv, HeadFill;
      ghost var o := nodes[taker];
      ghost var t := Taker(o.id, o.side, kind, o.price);
      ghost var whole := Books.Match(view.book, t, o.remaining);
      log := [];
      var side := Opposite(nodes[taker].side);
      while nodes[taker].remaining != 0
        invariant Taking(taker, o)
        invariant whole == Resume(log, Books.Match(view.book, t, nodes[taker].remaining))
        decreases |view.book.orders|, nodes[taker].remaining
      {
        var level := if side.Sell? then bestAsk else bestBid;
        BestLevelOf(side, {taker}, {o.id});
        if level == INVALID {
          return;
        }
        FixedOf({taker}, {o.id});
        var price := LevelPrice(level);
        if kind.Limit? && (if side.Sell? then nodes[taker].price < price else nodes[taker].price > price) {
          return;
        }
        var fills := MatchLevel(taker, level, price, o, kind);
        log := log + fills;
      }
    }

    lemma FixedOf(loose: set<nat>, extra: set<nat>)
      requires Inv(loose, extra)
      ensures Fixed()
    {
    }

    // ---- Queries ----

    /** The node of a resting order, or INVALID. */
    method Lookup(id: nat) returns (i: nat)
      requires Valid()
      ensures i == INVALID <==> id !in view.book.orders
      ensures i != INVALID ==> i < nodes.Length && i < |view.owner| && view.owner[i].Listed? && nodes[i].id == id
      ensures i != INVALID ==> id in view.at && view.at[id] == i
      ensures i != INVALID ==> view.book.orders[id] == Order(nodes[i].side, nodes[i].price, nodes[i].remaining)
    {
      hide Sound, FixedOrderIndex.Valid, SideTied, LevelsTied, NodesTied, IsGrid, Increasing;
      i := index.Find(id);
      OrderNode(view, grid, id);
      if id in view.book.orders {
        TiedNode(nodes, view.nodes, i);
      }
    }

    method ActiveOrders() returns (n: nat)
      requires Valid()
      ensures n == |view.book.orders|
    {
      n := active;
    }

    method BestBid() returns (price: int)
      requires Valid()
      ensures price == if Best(view.book, Buy) == None then 0 else Best(view.book, Buy).value
      ensures view.book.bids == map[] ==> price == 0
      ensures view.book.bids != map[] ==> price in view.book.bids && forall p :: p in view.book.bids ==> p <= price
    {
      BestLevelOf(Buy, {}, {});
      if bestBid == INVALID {
        return 0;
      }
      price := LevelPrice(bestBid);
    }

    method BestAsk() returns (price: int)
      requires Valid()
      ensures price == if Best(view.book, Sell) == None then 0 else Best(view.book, Sell).value
      ensures view.book.asks == map[] ==> price == 0
      ensures view.book.asks != map[] ==> price in view.book.asks && forall p :: p in view.book.asks ==> price <= p
    {
      BestLevelOf(Sell, {}, {});
      if bestAsk == INVALID {
        return 0;
      }
      price := LevelPrice(bestAsk);
    }

    method Contains(id: nat) returns (b: bool)
      requires Valid()
      ensures b <==> id in view.book.orders
    {
      var i := Lookup(id);
      b := i != INVALID;
    }

    method Remaining(id: nat) returns (r: nat)
      requires Valid()
      ensures r == if id in view.book.orders then view.book.orders[id].remaining else 0
    {
      var i := Lookup(id);
      r := if i == INVALID then 0 else nodes[i].remaining;
    }

    /** The 64-bit level total: the sum over the queue, modulo 2^64. */
    method LevelQuantity(side: Side, price: int) returns (total: nat)
      requires Valid()
      ensures total == QueueTotal(view.book, Queue(view.book, side, price)) % (U64_MAX + 1)
    {
      hide Sound, FixedOrderIndex.Valid, SideTied, LevelsTied, NodesTied, IsGrid, Increasing;
      var level := PriceIndex(minimumPrice, tickSize, levelCount, price, grid);
      if level == None {
        OffGrid(view, grid, side, price);
        return 0;
      }
      LevelHead(view, grid, {}, {}, side, level.value);
      SoundAt(view, grid, {}, {}, KeyOf(grid, side, level.value));
      PlaceKey(grid, side, level.value);
      LevelTotal(view, grid, KeyOf(grid, side, level.value));
      var lvl := LevelAt(side, level.value);
      total := lvl.total % (U64_MAX + 1);
    }

    /** Walk a level from head to tail: exactly its queue, in time order, with what remains of each order. */
    method VisitLevel(side: Side, price: int) returns (visits: seq<(nat, nat)>)
      requires Valid()
      ensures visits == Depth(view.book, Queue(view.book, side, price))
    {
      hide Sound, FixedOrderIndex.Valid, SideTied, LevelsTied, NodesTied, IsGrid, Increasing, Chained,
           QueueAt, RungAt;
      visits := [];
      var level := PriceIndex(minimumPrice, tickSize, levelCount, price, grid);
      if level == None {
        OffGrid(view, grid, side, price);
        return;
      }
      LevelHead(view, grid, {}, {}, side, level.value);
      ghost var k := KeyOf(grid, side, level.value);
      ghost var q := view.queues[k];
      var lvl := LevelAt(side, level.value);
      var i := lvl.head;
      ghost var m := 0;
      SoundAt(view, grid, {}, {}, k);
      PlaceKey(grid, side, level.value);
      QueueEnds(view, grid, k);
      while i != INVALID
        invariant 0 <= m <= |q| && i == (if m < |q| then q[m] else INVALID)
        invariant visits == Depth(view.book, Ids(view.nodes, q)[..m])
        decreases |q| - m
      {
        WalkStep(view.nodes, q, lvl, m);
        TiedLength(nodes, view.nodes);
        TiedNode(nodes, view.nodes, i);
        VisitStep(view, grid, k, m);
        visits := visits + [(nodes[i].id, nodes[i].remaining)];
        i := nodes[i].next;
        m := m + 1;
      }
      assert Ids(view.nodes, q)[..m] == Ids(view.nodes, q);
    }

    // ---- Feed operations: an exchange's own transitions, never matched here ----

    method FeedAdd(id: nat, side: Side, price: int, quantity: nat) returns (ok: bool)
      requires Valid()
      modifies this`view, this`free, this`active, this`bestBid, this`bestAsk
      modifies nodes, bids, asks, bidBits, askBits, index, index.entries
      ensures Valid()
      ensures ok <==> id != 0 && id != U64_MAX && quantity != 0 && id !in old(view).book.orders
                      && price in grid && |old(view).book.orders| < nodes.Length
      ensures view.book == if ok then Add(old(view).book, id, Order(side, price, quantity)) else old(view).book
    {
      hide Sound, FixedOrderIndex.Valid, SideTied, LevelsTied, NodesTied, IsGrid, Increasing;
      if id == 0 || id == U64_MAX || quantity == 0 {
        return false;
      }
      var known := Lookup(id);
      if known != INVALID {
        return false;
      }
      var level := PriceIndex(minimumPrice, tickSize, levelCount, price, grid);
      if level == None {
        return false;
      }
      var i := NewNode(id, Node(id, price, quantity, INVALID, INVALID, INVALID, level.value, side));
      if i == INVALID {
        return false;
      }
      PlaceKey(grid, side, level.value);
      TiedNode(nodes, view.nodes, i);
      Append(i, {i}, {id});
      assert {i} - {i} == {} && {id} - {id} == {};
      return true;
    }

    method FeedReduce(id: nat, quantity: nat) returns (ok: bool)
      requires Valid()
      modifies this`view, this`free, this`active, this`bestBid, this`bestAsk
      modifies nodes, bids, asks, bidBits, askBits, index, index.entries
      ensures Valid()
      ensures ok <==> id in old(view).book.orders && quantity != 0 && quantity <= old(view).book.orders[id].remaining
      ensures view.book == if ok then Reduce(old(view).book, id, quantity) else old(view).book
    {
      hide Sound, FixedOrderIndex.Valid, SideTied, LevelsTied, NodesTied, IsGrid, Increasing,
           Shrinkable, Remove;
      ghost var b := view.book;
      var i := Lookup(id);
      if i == INVALID || quantity == 0 || quantity > nodes[i].remaining {
        return false;
      }
      TiedNode(nodes, view.nodes, i);
      ShrinkStep(view, grid, {}, {}, i, view.owner[i].key, quantity);
      ReduceAt(i, quantity, {}, {});
      TiedNode(nodes, view.nodes, i);
      if nodes[i].remaining == 0 {
        RemoveAfterShrink(b, id, quantity);
        Discard(i);
      }
      return true;
    }

    /** Unlink a listed node and release it with its id. */
    method Discard(i: nat)
      requires Valid() && i < nodes.Length && i < |view.owner| && view.owner[i].Listed?
      modifies this`view, this`free, this`active, this`bestBid, this`bestAsk
      modifies nodes, bids, asks, bidBits, askBits, index, index.entries
      ensures Valid() && old(nodes[i].id) in old(view).book.orders
      ensures view.book == Remove(old(view).book, old(nodes[i].id))
    {
      hide Sound, FixedOrderIndex.Valid, SideTied, LevelsTied, NodesTied, IsGrid, Increasing,
           Unlinked, Unlinkable, Detached, Remove;
      ghost var id := nodes[i].id;
      TiedNode(nodes, view.nodes, i);
      Unlink(i, {}, {});
      TiedNode(nodes, view.nodes, i);
      assert {} + {i} == {i} && {} + {id} == {id};
      Release(i, {i}, {id});
      assert {i} - {i} == {} && {id} - {id} == {};
    }

    method FeedDelete(id: nat) returns (ok: bool)
      requires Valid()
      modifies this`view, this`free, this`active, this`bestBid, this`bestAsk
      modifies nodes, bids, asks, bidBits, askBits, index, index.entries
      ensures Valid()
      ensures ok <==> id in old(view).book.orders
      ensures view.book == if ok then Remove(old(view).book, id) else old(view).book
    {
      var i := Lookup(id);
      if i == INVALID {
        return false;
      }
      Discard(i);
      return true;
    }

    /** The replacement keeps the node and the side, takes the new id, and goes to the tail. */
    method FeedReplace(oldId: nat, newId: nat, price: int, quantity: nat) returns (ok: bool)
      requires Valid()
      modifies this`view, this`free, this`active, this`bestBid, this`bestAsk
      modifies nodes, bids, asks, bidBits, askBits, index, index.entries
      ensures Valid()
      ensures ok <==> oldId in old(view).book.orders && newId != 0 && newId != U64_MAX && quantity != 0
                      && newId !in old(view).book.orders && price in grid
      ensures view.book == if !ok then old(view).book
                           else Add(Remove(old(view).book, oldId), newId,
                                    Order(old(view).book.orders[oldId].side, price, quantity))
    {
      hide Sound, FixedOrderIndex.Valid, SideTied, LevelsTied, NodesTied, IsGrid, Increasing;
      var i := Lookup(oldId);
      if i == INVALID || newId == 0 || newId == U64_MAX || quantity == 0 {
        return false;
      }
      var known := Lookup(newId);
      if known != INVALID {
        return false;
      }
      var level := PriceIndex(minimumPrice, tickSize, levelCount, price, grid);
      if level == None {
        return false;
      }
      Rename(i, oldId, newId, price, quantity, level.value);
      ok := true;
    }

    /** Give a listed node its new id, price and size and put it at the tail of its new level. */
    method Rename(i: nat, oldId: nat, newId: nat, price: int, quantity: nat, level: nat)
      requires Valid() && oldId in view.book.orders && oldId in view.at && view.at[oldId] == i && i < nodes.Length
      requires newId != 0 && newId != U64_MAX && newId !in view.book.orders && quantity != 0
      requires level < |grid| && grid[level] == price
      modifies this`view, this`free, this`active, this`bestBid, this`bestAsk
      modifies nodes, bids, asks, bidBits, askBits, index, index.entries
      ensures Valid()
      ensures view.book == Add(Remove(old(view).book, oldId), newId,
                               Order(old(view).book.orders[oldId].side, price, quantity))
    {
      hide Sound, FixedOrderIndex.Valid, SideTied, LevelsTied, NodesTied, IndexTied, IsGrid, Increasing,
           Unlinked, Unlinkable, Detached, Remove, Add;
      OrderNode(view, grid, newId);
      OrderNode(view, grid, oldId);
      TiedNode(nodes, view.nodes, i);
      var side := nodes[i].side;
      One(newId);
      One(i);
      Two(newId, oldId);
      IndexNew(newId, i, {}, {});
      Unlink(i, {}, {newId});
      DropIndex(oldId, {i}, {newId} + {oldId});
      SetLoose(i, Node(newId, price, quantity, INVALID, INVALID, nodes[i].freeNext, level, side), {i}, {newId});
      TiedNode(nodes, view.nodes, i);
      PlaceKey(grid, side, level);
      Append(i, {i}, {newId});
    }

    // ---- The matching simulator ----

    /** Match the incoming node, then complete, cancel or rest it. */
    method Finish(i: nat, kind: OrderType, quantity: nat) returns (log: seq<Event>)
      requires i < nodes.Length && Taking(i, nodes[i]) && nodes[i].remaining == quantity && nodes[i].next == INVALID
      requires kind.Limit? ==> nodes[i].level < |grid| && nodes[i].price == grid[nodes[i].level]
      modifies this`view, this`free, this`active, this`bestBid, this`bestAsk
      modifies nodes, bids, asks, bidBits, askBits, index, index.entries
      ensures Valid()
      ensures var o := old(nodes[i]);
              Result(true, view.book, log) == Execute(old(view).book, Taker(o.id, o.side, kind, o.price), quantity)
    {
      hide Sound, FixedOrderIndex.Valid, SideTied, LevelsTied, NodesTied, IsGrid, Increasing;
      ghost var id := nodes[i].id;
      log := Match(i, kind);
      assert {i} - {i} == {} && {id} - {id} == {};
      var left := nodes[i].remaining;
      if left == 0 {
        log := log + [Update(nodes[i].id, Filled, 0)];
        Release(i, {i}, {id});
        return;
      }
      if kind.Market? {
        log := log + [Update(nodes[i].id, Canceled, left)];
        Release(i, {i}, {id});
        return;
      }
      log := log + [Update(nodes[i].id, if left == quantity then New else PartiallyFilled, left)];
      TiedNode(nodes, view.nodes, i);
      PlaceKey(grid, nodes[i].side, nodes[i].level);
      Append(i, {i}, {id});
    }

    method Submit(r: OrderRequest) returns (ok: bool, log: seq<Event>)
      requires Valid()
      modifies this`view, this`free, this`active, this`bestBid, this`bestAsk
      modifies nodes, bids, asks, bidBits, askBits, index, index.entries
      ensures Valid()
      ensures Result(ok, view.book, log) == DenseSubmit(old(view).book, nodes.Length, grid, r)
    {
      hide Sound, FixedOrderIndex.Valid, SideTied, LevelsTied, NodesTied, IsGrid, Increasing, Execute;
      var rejected := [Update(r.id, Rejected, r.quantity)];
      if r.id == 0 || r.id == U64_MAX || r.quantity == 0 {
        return false, rejected;
      }
      var known := Lookup(r.id);
      if known != INVALID {
        return false, rejected;
      }
      var level := INVALID;
      if r.kind.Limit? {
        var at := PriceIndex(minimumPrice, tickSize, levelCount, r.price, grid);
        if at == None {
          return false, rejected;
        }
        level := at.value;
      }
      var i := NewNode(r.id, Node(r.id, r.price, r.quantity, INVALID, INVALID, INVALID, level, r.side));
      if i == INVALID {
        return false, rejected;
      }
      log := Finish(i, r.kind, r.quantity);
      ok := true;
    }

    method Cancel(id: nat) returns (ok: bool, log: seq<Event>)
      requires Valid()
      modifies this`view, this`free, this`active, this`bestBid, this`bestAsk
      modifies nodes, bids, asks, bidBits, askBits, index, index.entries
      ensures Valid()
      ensures Result(ok, view.book, log) == Books.Cancel(old(view).book, id)
    {
      var i := Lookup(id);
      if i == INVALID {
        return false, [];
      }
      log := [Update(id, Canceled, nodes[i].remaining)];
      Discard(i);
      ok := true;
    }

    /** Modify keeps the node and its index entry while it matches again at the new price. */
    method Modify(id: nat, price: int, quantity: nat) returns (ok: bool, log: seq<Event>)
      requires Valid()
      modifies this`view, this`free, this`active, this`bestBid, this`bestAsk
      modifies nodes, bids, asks, bidBits, askBits, index, index.entries
      ensures Valid()
      ensures Result(ok, view.book, log) == DenseModify(old(view).book, grid, id, price, quantity)
    {
      hide Sound, FixedOrderIndex.Valid, SideTied, LevelsTied, NodesTied, IsGrid, Increasing,
           Unlinked, Unlinkable, Detached, Remove, Execute;
      var i := Lookup(id);
      if i == INVALID || quantity == 0 {
        return false, [];
      }
      var level := PriceIndex(minimumPrice, tickSize, levelCount, price, grid);
      if level == None {
        return false, [];
      }
      TiedNode(nodes, view.nodes, i);
      var side := nodes[i].side;
      assert {} + {i} == {i} && {} + {id} == {id};
      Unlink(i, {}, {});
      TiedNode(nodes, view.nodes, i);
      SetLoose(i, nodes[i].(price := price, remaining := quantity, level := level.value), {i}, {id});
      TiedNode(nodes, view.nodes, i);
      log := Finish(i, Limit, quantity);
      ok := true;
    }

    /** Allocate, index and fill in a node for a new id; INVALID when the arena is full. */
    method NewNode(id: nat, node: Node) returns (i: nat)
      requires Valid() && id != 0 && id != U64_MAX && id !in view.book.orders && node.id == id
      modifies this`view, this`free, this`active, this`bestBid, this`bestAsk
      modifies nodes, bids, asks, bidBits, askBits, index, index.entries
      ensures i == INVALID <==> |old(view).book.orders| >= nodes.Length
      ensures i == INVALID ==> Valid() && view == old(view)
      ensures i != INVALID ==> Taking(i, node) && nodes[i] == node && Inv({i}, {id}) && view.book == old(view).book
    {
      hide Sound, FixedOrderIndex.Valid, SideTied, LevelsTied, NodesTied, IndexTied, IsGrid, Increasing;
      ghost var v := view;
      OrderNode(v, grid, id);
      FullArena(v, grid);
      TiedLength(nodes, v.nodes);
      i := Allocate({}, {});
      if i != INVALID {
        One(i);
        Enter(i, node);
      }
    }

    /** Index and fill in an allocated node. */
    method Enter(i: nat, node: Node)
      requires Inv({i}, {}) && i < nodes.Length && node.id != 0 && node.id != U64_MAX && node.id !in view.at
      modifies this`view, nodes, index, index.entries
      ensures Taking(i, node) && nodes[i] == node && Inv({i}, {node.id}) && view.book == old(view).book
    {
      hide Sound, FixedOrderIndex.Valid, SideTied, LevelsTied, NodesTied, IndexTied, IsGrid, Increasing;
      One(node.id);
      TiedLength(nodes, view.nodes);
      IndexNew(node.id, i, {i}, {});
      SetLoose(i, node, {i}, {node.id});
      TiedNode(nodes, view.nodes, i);
    }
  }

  lemma Two(x: nat, y: nat)
    ensures x != y ==> {x} + {y} - {y} == {x}
  {
  }

  lemma One(x: nat)
    ensures {} + {x} == {x} && {x} - {x} == {}
  {
  }

  lemma TiedLength(nodes: array<Node>, view: seq<Node>)
    requires NodesTied(nodes, view)
    ensures nodes.Length == |view|
  {
  }

  lemma PlaceKey(grid: seq<int>, s: Side, level: nat)
    requires level < |grid|
    ensures var k := KeyOf(grid, s, level); k < 2 * |grid| && KeySide(grid, k) == s && KeyPrice(grid, k) == grid[level]
  {
  }

  lemma FullArena(v: View, grid: seq<int>)
    requires Sound(v, grid, {}, {})
    ensures v.freeList == [] <==> |v.book.orders| == |v.nodes|
    ensures |v.book.orders| <= |v.nodes|
  {
  }

  lemma OrderNode(v: View, grid: seq<int>, id: nat)
    requires Sound(v, grid, {}, {})
    ensures id in v.at <==> id in v.book.orders
    ensures id in v.book.orders ==>
              var i := v.at[id];
              && i < |v.nodes| == |v.owner| <= INVALID && v.owner[i].Listed? && v.nodes[i].id == id
              && v.book.orders[id] == Order(v.nodes[i].side, v.nodes[i].price, v.nodes[i].remaining)
  {
    assert OrderAt(v, id);
    if id in v.book.orders {
      assert NodeAt(v, grid, v.at[id]);
    }
  }

  lemma OffGrid(v: View, grid: seq<int>, s: Side, price: int)
    requires Sound(v, grid, {}, {}) && price !in grid
    ensures Queue(v.book, s, price) == []
  {
  }

  /** The listed ids with their remaining quantities. */
  ghost function Depth(b: Book, ids: seq<nat>): (depth: seq<(nat, nat)>)
    ensures |depth| == |ids|
  {
    seq(|ids|, k requires 0 <= k < |ids| => (ids[k], if ids[k] in b.orders then b.orders[ids[k]].remaining else 0))
  }

  lemma DepthGrows(b: Book, ids: seq<nat>, m: nat, remaining: nat)
    requires m < |ids| && ids[m] in b.orders && b.orders[ids[m]].remaining == remaining
    ensures Depth(b, ids[..m + 1]) == Depth(b, ids[..m]) + [(ids[m], remaining)]
  {
  }

  lemma QueuedNode(v: View, grid: seq<int>, k: nat, m: nat)
    requires Sound(v, grid, {}, {}) && k < |v.queues| && m < |v.queues[k]|
    ensures var i := v.queues[k][m];
            && i < |v.nodes| && v.nodes[i].id in v.book.orders
            && v.book.orders[v.nodes[i].id].remaining == v.nodes[i].remaining
  {
    hide Chained, RungAt, OrderAt, FreeOK;
    assert QueueAt(v, k) && NodeAt(v, grid, v.queues[k][m]);
  }

  /** The m-th node of a queue carries the remaining quantity of its order. */
  lemma VisitStep(v: View, grid: seq<int>, k: nat, m: nat)
    requires Sound(v, grid, {}, {}) && k < |v.queues| && m < |v.queues[k]|
    ensures v.queues[k][m] < |v.nodes|
    ensures var ids, n := Ids(v.nodes, v.queues[k]), v.nodes[v.queues[k][m]];
            Depth(v.book, ids[..m + 1]) == Depth(v.book, ids[..m]) + [(n.id, n.remaining)]
  {
    hide Sound, Depth;
    QueuedNode(v, grid, k, m);
    DepthGrows(v.book, Ids(v.nodes, v.queues[k]), m, v.nodes[v.queues[k][m]].remaining);
  }

  /** Sum of the remaining quantities of the listed ids. */
  ghost function QueueTotal(b: Book, ids: seq<nat>): nat {
    if ids == [] then 0
    else
      var last := ids[|ids| - 1];
      QueueTotal(b, ids[..|ids| - 1]) + (if last in b.orders then b.orders[last].remaining else 0)
  }

  lemma {:induction false} TotalsAgree(v: View, grid: seq<int>, q: seq<nat>)
    requires Sound(v, grid, {}, {}) && forall j :: 0 <= j < |q| ==> q[j] < |v.owner| && v.owner[q[j]].Listed?
    ensures QueueTotal(v.book, Ids(v.nodes, q)) == Total(v.nodes, q)
  {
    if q != [] {
      var n := |q| - 1;
      TotalsAgree(v, grid, q[..n]);
      assert NodeAt(v, grid, q[n]);
      assert Ids(v.nodes, q)[..n] == Ids(v.nodes, q[..n]);
    }
  }

  lemma LevelTotal(v: View, grid: seq<int>, k: nat)
    requires Sound(v, grid, {}, {}) && QueueAt(v, k) && RungAt(v, grid, k) && Shape(v, grid) && k < 2 * |grid|
    ensures v.levels[k].total == QueueTotal(v.book, Queue(v.book, KeySide(grid, k), KeyPrice(grid, k)))
  {
    TotalsAgree(v, grid, v.queues[k]);
  }

  lemma SoundAt(v: View, grid: seq<int>, loose: set<nat>, extra: set<nat>, k: nat)
    requires Sound(v, grid, loose, extra)
    ensures Shape(v, grid) && QueueAt(v, k) && RungAt(v, grid, k)
  {
  }

  lemma QueueEnds(v: View, grid: seq<int>, k: nat)
    requires k < 2 * |grid| && Shape(v, grid) && QueueAt(v, k) && RungAt(v, grid, k)
    ensures Queue(v.book, KeySide(grid, k), KeyPrice(grid, k)) == Ids(v.nodes, v.queues[k])
    ensures Chained(v.nodes, v.queues[k], v.levels[k]) && |v.nodes| <= INVALID
    ensures v.levels[k].head == if v.queues[k] == [] then INVALID else v.queues[k][0]
    ensures forall m :: 0 <= m < |v.queues[k]| ==> v.queues[k][m] < INVALID
  {
  }

  lemma WalkStep(nodes: seq<Node>, q: seq<nat>, lvl: PriceLevel, m: nat)
    requires Chained(nodes, q, lvl) && m < |q|
    ensures q[m] < |nodes| && Ids(nodes, q)[m] == nodes[q[m]].id
    ensures nodes[q[m]].next == (if m + 1 < |q| then q[m + 1] else INVALID)
  {
    assert nodes[q[m]].next == After(q, m);
  }

  lemma LevelHead(v: View, grid: seq<int>, loose: set<nat>, extra: set<nat>, s: Side, level: nat)
    requires Sound(v, grid, loose, extra) && level < |grid|
    ensures KeyOf(grid, s, level) < |v.queues| == |v.levels|
    ensures v.levels[KeyOf(grid, s, level)].head == INVALID <==> v.queues[KeyOf(grid, s, level)] == []
    ensures v.queues[KeyOf(grid, s, level)] != [] <==> grid[level] in SideOf(v.book, s)
  {
    LevelOccupied(v, grid, loose, extra, s, level);
    assert QueueAt(v, KeyOf(grid, s, level));
  }

  lemma NotExtra(v: View, grid: seq<int>, loose: set<nat>, extra: set<nat>, i: nat)
    requires Sound(v, grid, loose, extra) && i < |v.nodes| && i < |v.owner| && v.owner[i].Listed?
    ensures v.nodes[i].id !in extra && i !in loose && |v.owner| == |v.nodes|
  {
    assert NodeAt(v, grid, i);
  }

  lemma ShrinkStep(v: View, grid: seq<int>, loose: set<nat>, extra: set<nat>, i: nat, k: nat, quantity: nat)
    requires Sound(v, grid, loose, extra) && i < |v.nodes| && v.owner[i] == Listed(k)
    requires quantity <= v.nodes[i].remaining
    ensures |v.nodes| == |v.owner| <= INVALID && |v.queues| == |v.levels| == 2 * |grid|
    ensures v.nodes[i].level < |grid| && k == KeyOf(grid, v.nodes[i].side, v.nodes[i].level) < 2 * |grid|
    ensures Shrinkable(v, i, k, quantity) && quantity <= v.levels[k].total
    ensures Sound(Shrunk(v, i, k, quantity), grid, loose, extra)
    ensures |Shrunk(v, i, k, quantity).book.orders| == |v.book.orders|
  {
    ListedNode(v, grid, loose, extra, i, k);
    assert NodeAt(v, grid, i);
    ShrinkKeeps(v, grid, i, k, quantity, loose, extra);
    assert Shrunk(v, i, k, quantity).book.orders.Keys == v.book.orders.Keys;
  }

  /** The head of a non-empty level is the node of the first order in the queue at its price. */
  lemma HeadFacts(v: View, grid: seq<int>, loose: set<nat>, extra: set<nat>, s: Side, level: nat)
    requires Sound(v, grid, loose, extra) && level < |grid| && v.queues[KeyOf(grid, s, level)] != []
    ensures var k := KeyOf(grid, s, level);
            var i, q := v.levels[k].head, Queue(v.book, s, grid[level]);
            && i < |v.nodes| == |v.owner| && v.owner[i] == Listed(k) && v.nodes[i].previous == INVALID && i !in loose
            && q != [] && q[0] == v.nodes[i].id && q[0] in v.book.orders && q[0] !in extra
            && v.book.orders[q[0]].remaining == v.nodes[i].remaining
  {
    var k := KeyOf(grid, s, level);
    var q := v.queues[k];
    assert QueueAt(v, k) && RungAt(v, grid, k);
    assert v.nodes[q[0]].previous == Before(q, 0);
    assert NodeAt(v, grid, q[0]);
    assert Ids(v.nodes, q)[0] == IdAt(v.nodes, q[0]);
  }

  lemma IndexFacts(v: View, grid: seq<int>, loose: set<nat>, extra: set<nat>, id: nat, i: nat)
    requires Sound(v, grid, loose, extra) && id !in v.at && |extra| <= 1
    ensures |extra + {id}| <= 2 && Sound(v.(at := v.at[id := i]), grid, loose, extra + {id})
  {
    var at := v.at[id := i];
    assert at.Keys == v.at.Keys + {id};
    IndexEdit(v, at, grid, loose, extra, extra + {id});
  }

  lemma AppendCards(v: View, loose: set<nat>, extra: set<nat>, i: nat, id: nat, o: Order)
    requires i in loose && id in extra && |extra| <= 2 && id !in v.book.orders
    ensures |v.book.orders[id := o]| + |loose - {i}| == |v.book.orders| + |loose| && |extra - {id}| <= 2
  {
    assert loose == (loose - {i}) + {i} && extra == (extra - {id}) + {id};
  }

  /** What appending the loose node `i` to queue `k` reads and leaves. */
  lemma AppendStep(v: View, grid: seq<int>, loose: set<nat>, extra: set<nat>, i: nat, k: nat)
    requires Increasing(grid) && Sound(v, grid, loose, extra) && i in loose && Appendable(v, grid, i, k, extra)
    requires |extra| <= 2
    ensures |v.nodes| == |v.owner| <= INVALID && |v.queues| == |v.levels| == 2 * |grid|
    ensures v.levels[k].tail == INVALID || (v.levels[k].tail < |v.nodes| && v.levels[k].tail != i)
    ensures Sound(Appended(v, i, k), grid, loose - {i}, extra - {v.nodes[i].id})
    ensures |Appended(v, i, k).book.orders| + |loose - {i}| == |v.book.orders| + |loose|
    ensures |extra - {v.nodes[i].id}| <= 2
  {
    assert QueueAt(v, k) && v.owner[i].Loose?;
    AppendKeeps(v, grid, i, k, loose, extra);
    var o := v.nodes[i];
    AppendCards(v, loose, extra, i, o.id, Order(o.side, o.price, o.remaining));
    assert Appended(v, i, k).book.orders == v.book.orders[o.id := Order(o.side, o.price, o.remaining)];
  }

  lemma ListedNode(v: View, grid: seq<int>, loose: set<nat>, extra: set<nat>, i: nat, k: nat)
    requires Sound(v, grid, loose, extra) && i < |v.nodes| && v.owner[i] == Listed(k)
    ensures |v.nodes| == |v.owner| <= INVALID && |v.queues| == |v.levels| == 2 * |grid|
    ensures v.nodes[i].level < |grid| && k == KeyOf(grid, v.nodes[i].side, v.nodes[i].level) < 2 * |grid|
    ensures Unlinkable(v, i, k) && i !in loose
    ensures v.book.orders[v.nodes[i].id] == Order(v.nodes[i].side, v.nodes[i].price, v.nodes[i].remaining)
  {
    ListedFacts(v, grid, loose, extra, i, k);
    assert NodeAt(v, grid, i);
  }

  /** What unlinking node `i` of queue `k` reads and leaves. */
  lemma UnlinkStep(v: View, grid: seq<int>, loose: set<nat>, extra: set<nat>, i: nat, k: nat)
    requires Increasing(grid) && Sound(v, grid, loose, extra) && i < |v.nodes| && v.owner[i] == Listed(k)
    requires |extra| <= 1
    ensures |v.nodes| == |v.owner| <= INVALID && |v.queues| == |v.levels| == 2 * |grid|
    ensures v.nodes[i].level < |grid| && k == KeyOf(grid, v.nodes[i].side, v.nodes[i].level) < 2 * |grid|
    ensures Unlinkable(v, i, k) && i !in loose && v.queues[k] != [] && v.nodes[i].remaining <= v.levels[k].total
    ensures Sound(Unlinked(v, i, k), grid, loose + {i}, extra + {v.nodes[i].id}) && Departed(v, Unlinked(v, i, k), i)
    ensures var o := v.nodes[i];
            && (o.previous == INVALID || o.previous < |v.nodes|) && (o.next == INVALID || o.next < |v.nodes|)
            && o.previous != i && o.next != i && (o.previous != o.next || o.previous == INVALID)
            && ((if o.previous == INVALID then o.next else v.levels[k].head) == INVALID <==>
                  Unlinked(v, i, k).queues[k] == [])
    ensures |Unlinked(v, i, k).book.orders| + |loose + {i}| == |v.book.orders| + |loose|
    ensures |extra + {v.nodes[i].id}| <= 2
    ensures var v', o := Unlinked(v, i, k), v.nodes[i];
            && v'.nodes == Detached(v.nodes, i) && v'.levels == v.levels[k := DetachedLevel(v.levels[k], o)]
            && |v'.queues| == |v.queues| && v'.queues == v.queues[k := v'.queues[k]]
            && v'.at == v.at && v'.freeList == v.freeList
  {
    ListedNode(v, grid, loose, extra, i, k);
    UnlinkKeeps(v, grid, i, k, loose, extra);
    UnlinkDeparts(v, grid, loose, extra, i, k);
    assert QueueAt(v, k);
    UnlinkNeighbours(v.nodes, v.queues[k], v.levels[k], Position(v.queues[k], i));
    assert Unlinked(v, i, k).book.orders == v.book.orders - {v.nodes[i].id};
    Smaller(v.book.orders, v.nodes[i].id);
  }

  /** Node `i` has left its queue and its order the book; loose nodes are as they were. */
  ghost predicate Departed(v: View, v': View, i: nat)
  {
    && i < |v.nodes| == |v'.nodes| == |v.owner| && v.nodes[i].id in v.book.orders
    && v'.book == Remove(v.book, v.nodes[i].id) && v'.at == v.at
    && v'.nodes[i] == v.nodes[i].(previous := INVALID, next := INVALID)
    && (forall j :: 0 <= j < |v.nodes| && v.owner[j].Loose? ==> v'.nodes[j] == v.nodes[j])
  }

  lemma UnlinkDeparts(v: View, grid: seq<int>, loose: set<nat>, extra: set<nat>, i: nat, k: nat)
    requires Sound(v, grid, loose, extra) && Unlinkable(v, i, k)
    ensures Departed(v, Unlinked(v, i, k), i)
  {
    var q := v.queues[k];
    var m := Position(q, i);
    assert QueueAt(v, k) && q[m] == i;
    assert v.nodes[i].previous == Before(q, m) && v.nodes[i].next == After(q, m);
    assert m > 0 ==> v.owner[q[m - 1]] == Listed(k);
    assert m + 1 < |q| ==> v.owner[q[m + 1]] == Listed(k);
  }

  lemma UnlinkNeighbours(nodes: seq<Node>, q: seq<nat>, lvl: PriceLevel, m: nat)
    requires Chained(nodes, q, lvl) && m < |q| && |nodes| <= INVALID
    ensures var o := nodes[q[m]];
            && (o.previous == INVALID || o.previous < |nodes|) && (o.next == INVALID || o.next < |nodes|)
            && o.previous != q[m] && o.next != q[m] && (o.previous != o.next || o.previous == INVALID)
            && ((if o.previous == INVALID then o.next else lvl.head) == INVALID <==> Cut(q, m) == [])
  {
    var o := nodes[q[m]];
    assert o.previous == Before(q, m) && o.next == After(q, m);
  }

  lemma StillOccupied(bidBits: array<nat>, askBits: array<nat>, bestBid: nat, bestAsk: nat,
                      queues: seq<seq<nat>>, queues': seq<seq<nat>>, grid: seq<int>, k: nat)
    requires SideTied(bidBits, bestBid, queues, grid, Buy) && SideTied(askBits, bestAsk, queues, grid, Sell)
    requires k < |queues| == |queues'| && queues[k] != [] && queues'[k] != [] && queues' == queues[k := queues'[k]]
    ensures SideTied(bidBits, bestBid, queues', grid, Buy) && SideTied(askBits, bestAsk, queues', grid, Sell)
  {
  }

  method Uniform<T>(n: nat, value: T) returns (a: array<T>)
    ensures fresh(a) && a.Length == n && forall i :: 0 <= i < n ==> a[i] == value
  {
    a := new T[n](_ => value);
  }

  method EmptySide(count: U32) returns (levels: array<PriceLevel>, words: array<nat>)
    ensures fresh(levels) && fresh(words) && levels.Length == count && words.Length == WordCount(count)
    ensures levels[..] == seq(count, _ => PriceLevel(INVALID, INVALID, 0))
    ensures forall i :: 0 <= i < words.Length ==> words[i] == 0
  {
    levels := Uniform(count, PriceLevel(INVALID, INVALID, 0));
    words := Uniform(WordCount(count), 0);
  }

  method FreeNodes(n: nat) returns (a: array<Node>)
    ensures fresh(a) && a.Length == n
    ensures forall i :: 0 <= i < n ==> a[i].freeNext == if i + 1 < n then i + 1 else INVALID
  {
    a := Uniform(n, BLANK);
    for i := 0 to n
      invariant forall j :: 0 <= j < i ==> a[j].freeNext == if j + 1 < n then j + 1 else INVALID
    {
      a[i] := a[i].(freeNext := if i + 1 < n then i + 1 else INVALID);
    }
  }

  ghost function Initial(nodes: seq<Node>, grid: seq<int>): View {
    View(nodes, seq(2 * |grid|, _ => PriceLevel(INVALID, INVALID, 0)), seq(2 * |grid|, _ => []),
         seq(|nodes|, i requires 0 <= i => i), seq(|nodes|, _ => Owner.Free), map[], EMPTY)
  }

  lemma InitialSound(nodes: seq<Node>, grid: seq<int>)
    requires |nodes| <= INVALID
    requires forall i :: 0 <= i < |nodes| ==> nodes[i].freeNext == if i + 1 < |nodes| then i + 1 else INVALID
    ensures Sound(Initial(nodes, grid), grid, {}, {})
  {
    var v := Initial(nodes, grid);
    forall k: nat
      ensures QueueAt(v, k) && RungAt(v, grid, k)
    {
    }
    forall i | 0 <= i < |v.owner|
      ensures v.owner[i].Free? <==> i in v.freeList
    {
      assert v.freeList[i] == i;
    }
  }

  lemma InitialLevels(bids: array<PriceLevel>, asks: array<PriceLevel>, grid: seq<int>, nodes: seq<Node>)
    requires |grid| <= bids.Length == asks.Length
    requires bids[..] == asks[..] == seq(bids.Length, _ => PriceLevel(INVALID, INVALID, 0))
    ensures LevelsTied(bids, asks, Initial(nodes, grid).levels, |grid|)
  {
  }

  lemma InitialBest(bits: array<nat>, grid: seq<int>, nodes: seq<Node>, s: Side)
    requires |grid| <= 64 * bits.Length && forall i :: 0 <= i < bits.Length ==> bits[i] == 0
    ensures SideTied(bits, INVALID, Initial(nodes, grid).queues, grid, s)
  {
    ZeroBits(bits[..]);
  }

  lemma ZeroBits(bits: seq<nat>)
    requires forall i :: 0 <= i < |bits| ==> bits[i] == 0
    ensures Words(bits) && forall l: nat :: !Marked(bits, l)
  {
    forall l: nat
      ensures !Marked(bits, l)
    {
      ZeroHasNoBit(l % 64);
    }
    ZeroFits(64);
  }
}
