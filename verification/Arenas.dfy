/**
 The node arena of the dense book as a value: nodes, price levels, the ghost queues and owners that
 explain them, and the abstract book they represent. Every lemma is about one structural step.
 */
module Arenas {
  import opened Collections
  import opened Machine
  import opened Books

  datatype Node = Node(id: nat, price: int, remaining: nat, previous: nat, next: nat, freeNext: nat,
                       level: nat, side: Side)
  const BLANK: Node := Node(0, 0, 0, INVALID, INVALID, INVALID, INVALID, Buy)

  datatype PriceLevel = PriceLevel(head: nat, tail: nat, total: nat)

  // ---- One doubly linked queue ----

  ghost function Before(q: seq<nat>, k: nat): nat
    requires k <= |q|
  {
    if k == 0 then INVALID else q[k - 1]
  }

  ghost function After(q: seq<nat>, k: nat): nat
    requires k < |q|
  {
    if k + 1 == |q| then INVALID else q[k + 1]
  }

  /** The links of the nodes in `q` are mutually inverse and the level points at both ends. */
  ghost predicate Chained(nodes: seq<Node>, q: seq<nat>, lvl: PriceLevel)
  {
    && (forall k :: 0 <= k < |q| ==> q[k] < |nodes|)
    && (forall k {:trigger nodes[q[k]]} :: 0 <= k < |q| ==>
          nodes[q[k]].previous == Before(q, k) && nodes[q[k]].next == After(q, k))
    && Distinct(q)
    && lvl.head == (if q == [] then INVALID else q[0])
    && lvl.tail == Before(q, |q|)
  }

  ghost function Linked(nodes: seq<Node>, lvl: PriceLevel, i: nat): seq<Node>
    requires i < |nodes|
  {
    var ns := nodes[i := nodes[i].(previous := lvl.tail)];
    if lvl.tail < |nodes| then ns[lvl.tail := ns[lvl.tail].(next := i)] else ns
  }

  lemma AppendChain(nodes: seq<Node>, q: seq<nat>, lvl: PriceLevel, i: nat)
    requires Chained(nodes, q, lvl) && i < |nodes| <= INVALID && i !in q && nodes[i].next == INVALID
    ensures Chained(Linked(nodes, lvl, i), q + [i],
                    PriceLevel(if lvl.tail == INVALID then i else lvl.head, i, lvl.total))
  {
  }

  ghost function Detached(nodes: seq<Node>, i: nat): seq<Node>
    requires i < |nodes|
  {
    var p, n := nodes[i].previous, nodes[i].next;
    var n1 := if p < |nodes| then nodes[p := nodes[p].(next := n)] else nodes;
    var n2 := if n < |nodes| then n1[n := n1[n].(previous := p)] else n1;
    n2[i := n2[i].(previous := INVALID, next := INVALID)]
  }

  ghost function Cut(q: seq<nat>, k: nat): seq<nat>
    requires k < |q|
  {
    q[..k] + q[k + 1..]
  }

  /** What detaching node q[k] does to each other node of its queue. */
  lemma DetachedAt(nodes: seq<Node>, q: seq<nat>, lvl: PriceLevel, k: nat, m: nat)
    requires Chained(nodes, q, lvl) && k < |q| && m < |q| && m != k && |nodes| <= INVALID
    ensures var o, o' := nodes[q[m]], Detached(nodes, q[k])[q[m]];
            if m + 1 == k then o' == o.(next := After(q, k))
            else if m == k + 1 then o' == o.(previous := Before(q, k))
            else o' == o
  {
    assert q[m] != q[k];
  }

  lemma CutDistinct(q: seq<nat>, k: nat)
    requires Distinct(q) && k < |q|
    ensures Distinct(Cut(q, k))
  {
    var c := Cut(q, k);
    forall i, j | 0 <= i < j < |c|
      ensures c[i] != c[j]
    {
      assert c[i] == q[if i < k then i else i + 1] && c[j] == q[if j < k then j else j + 1];
    }
  }

  lemma UnlinkLinks(nodes: seq<Node>, q: seq<nat>, lvl: PriceLevel, k: nat, j: nat)
    requires Chained(nodes, q, lvl) && k < |q| && |nodes| <= INVALID && j < |q| - 1
    ensures var ns, c := Detached(nodes, q[k]), Cut(q, k);
            c[j] < |ns| && ns[c[j]].previous == Before(c, j) && ns[c[j]].next == After(c, j)
  {
    var m := if j < k then j else j + 1;
    assert Cut(q, k)[j] == q[m];
    DetachedAt(nodes, q, lvl, k, m);
  }

  lemma UnlinkChain(nodes: seq<Node>, q: seq<nat>, lvl: PriceLevel, k: nat)
    requires Chained(nodes, q, lvl) && k < |q| && |nodes| <= INVALID
    ensures var o := nodes[q[k]];
            Chained(Detached(nodes, q[k]), Cut(q, k),
                    PriceLevel(if o.previous == INVALID then o.next else lvl.head,
                               if o.next == INVALID then o.previous else lvl.tail, lvl.total))
  {
    var ns, c := Detached(nodes, q[k]), Cut(q, k);
    CutDistinct(q, k);
    forall j | 0 <= j < |c|
      ensures c[j] < |ns| && ns[c[j]].previous == Before(c, j) && ns[c[j]].next == After(c, j)
    {
      UnlinkLinks(nodes, q, lvl, k, j);
    }
    assert nodes[q[k]].previous == Before(q, k) && nodes[q[k]].next == After(q, k);
    assert k > 0 ==> q[k - 1] < |nodes|;
    assert k + 1 < |q| ==> q[k + 1] < |nodes|;
  }

  lemma ChainFrame(nodes: seq<Node>, ns: seq<Node>, q: seq<nat>, lvl: PriceLevel)
    requires Chained(nodes, q, lvl)
    requires forall k :: 0 <= k < |q| ==> q[k] < |ns| && ns[q[k]].previous == nodes[q[k]].previous
                                          && ns[q[k]].next == nodes[q[k]].next
    ensures Chained(ns, q, lvl)
  {
  }

  // ---- What a queue holds ----

  ghost function Left(nodes: seq<Node>, i: nat): nat
  {
    if i < |nodes| then nodes[i].remaining else 0
  }

  ghost function Total(nodes: seq<Node>, q: seq<nat>): nat
  {
    if q == [] then 0 else Total(nodes, q[..|q| - 1]) + Left(nodes, q[|q| - 1])
  }

  lemma {:induction false} TotalFrame(nodes: seq<Node>, ns: seq<Node>, q: seq<nat>)
    requires forall k :: 0 <= k < |q| ==> Left(ns, q[k]) == Left(nodes, q[k])
    ensures Total(ns, q) == Total(nodes, q)
  {
    if q != [] {
      TotalFrame(nodes, ns, q[..|q| - 1]);
    }
  }

  lemma TotalAppend(nodes: seq<Node>, q: seq<nat>, i: nat)
    ensures Total(nodes, q + [i]) == Total(nodes, q) + Left(nodes, i)
  {
    assert (q + [i])[..|q|] == q;
  }

  lemma {:induction false} TotalCut(nodes: seq<Node>, q: seq<nat>, k: nat)
    requires k < |q|
    ensures Total(nodes, q) == Total(nodes, Cut(q, k)) + Left(nodes, q[k])
  {
    var n := |q| - 1;
    if k == n {
      assert Cut(q, k) == q[..n];
    } else {
      TotalCut(nodes, q[..n], k);
      assert Cut(q, k) == Cut(q[..n], k) + [q[n]];
      TotalAppend(nodes, Cut(q[..n], k), q[n]);
    }
  }

  ghost function IdAt(nodes: seq<Node>, i: nat): nat
  {
    if i < |nodes| then nodes[i].id else 0
  }

  ghost function Ids(nodes: seq<Node>, q: seq<nat>): (ids: seq<nat>)
    ensures |ids| == |q| && forall k :: 0 <= k < |q| ==> ids[k] == IdAt(nodes, q[k])
  {
    seq(|q|, k requires 0 <= k < |q| => IdAt(nodes, q[k]))
  }

  lemma {:induction false} WithoutAt(ids: seq<nat>, k: nat)
    requires k < |ids| && forall j :: 0 <= j < k ==> ids[j] != ids[k]
    ensures Without(ids, ids[k]) == ids[..k] + ids[k + 1..]
  {
    if k > 0 {
      WithoutAt(ids[1..], k - 1);
      assert ids[..k] + ids[k + 1..] == [ids[0]] + (ids[1..][..k - 1] + ids[1..][k..]);
    }
  }

  /** Relinking changes no payload. */
  ghost predicate SamePayload(nodes: seq<Node>, ns: seq<Node>)
  {
    && |ns| == |nodes|
    && forall j :: 0 <= j < |nodes| ==> ns[j] == nodes[j].(previous := ns[j].previous, next := ns[j].next)
  }

  lemma IdsFrame(nodes: seq<Node>, ns: seq<Node>, q: seq<nat>)
    requires |ns| == |nodes| && forall i :: 0 <= i < |nodes| && i in q ==> ns[i].id == nodes[i].id
    ensures Ids(ns, q) == Ids(nodes, q)
  {
    forall k | 0 <= k < |q|
      ensures IdAt(ns, q[k]) == IdAt(nodes, q[k])
    {
    }
  }

  lemma LinkedPayload(nodes: seq<Node>, lvl: PriceLevel, i: nat)
    requires i < |nodes|
    ensures SamePayload(nodes, Linked(nodes, lvl, i))
  {
  }

  lemma DetachedPayload(nodes: seq<Node>, i: nat)
    requires i < |nodes|
    ensures SamePayload(nodes, Detached(nodes, i))
  {
    var p, n := nodes[i].previous, nodes[i].next;
    var n1 := if p < |nodes| then nodes[p := nodes[p].(next := n)] else nodes;
    var n2 := if n < |nodes| then n1[n := n1[n].(previous := p)] else n1;
    assert SamePayload(nodes, n1);
    assert SamePayload(nodes, n2);
  }

  // ---- The whole arena ----

  /** A node is free, allocated but in no queue, or in the queue with the given key. */
  datatype Owner = Free | Loose | Listed(key: nat)

  // Bid level l has key l; ask level l has key |grid| + l.

  ghost function KeyOf(grid: seq<int>, s: Side, l: nat): nat {
    if s.Buy? then l else |grid| + l
  }

  ghost function KeySide(grid: seq<int>, k: nat): Side {
    if k < |grid| then Buy else Sell
  }

  ghost function KeyPrice(grid: seq<int>, k: nat): int
    requires k < 2 * |grid|
  {
    if k < |grid| then grid[k] else grid[k - |grid|]
  }

  ghost predicate Increasing(grid: seq<int>)
  {
    forall a, b :: 0 <= a < b < |grid| ==> grid[a] < grid[b]
  }

  lemma KeysDiffer(grid: seq<int>, j: nat, k: nat)
    requires Increasing(grid) && j < 2 * |grid| && k < 2 * |grid| && j != k
    ensures KeySide(grid, j) != KeySide(grid, k) || KeyPrice(grid, j) != KeyPrice(grid, k)
  {
  }

  datatype View = View(nodes: seq<Node>, levels: seq<PriceLevel>, queues: seq<seq<nat>>,
                       freeList: seq<nat>, owner: seq<Owner>, at: map<nat, nat>, book: Book)

  ghost predicate Shape(v: View, grid: seq<int>)
  {
    |v.owner| == |v.nodes| <= INVALID && |v.queues| == |v.levels| == 2 * |grid|
  }

  /** A queue is linked in order, owned by its nodes, and has the right total. */
  ghost predicate QueueOK(nodes: seq<Node>, owner: seq<Owner>, q: seq<nat>, lvl: PriceLevel, k: nat)
  {
    && Chained(nodes, q, lvl)
    && (forall j :: 0 <= j < |q| ==> q[j] < |owner| && owner[q[j]] == Listed(k))
    && lvl.total == Total(nodes, q)
  }

  ghost predicate QueueAt(v: View, k: nat)
  {
    k < |v.queues| && k < |v.levels| ==> QueueOK(v.nodes, v.owner, v.queues[k], v.levels[k], k)
  }

  /** The abstract queue at the level's price lists the ids of its nodes in order. */
  ghost predicate RungAt(v: View, grid: seq<int>, k: nat)
  {
    k < 2 * |grid| && k < |v.queues| ==>
      Queue(v.book, KeySide(grid, k), KeyPrice(grid, k)) == Ids(v.nodes, v.queues[k])
  }

  ghost predicate NodeAt(v: View, grid: seq<int>, i: nat)
  {
    i < |v.nodes| && i < |v.owner| && v.owner[i].Listed? ==>
      var k, o := v.owner[i].key, v.nodes[i];
      && k < 2 * |grid| && k < |v.queues| && i in v.queues[k]
      && o.side == KeySide(grid, k) && o.price == KeyPrice(grid, k) && k == KeyOf(grid, o.side, o.level)
      && o.id in v.at && v.at[o.id] == i
      && o.id in v.book.orders && v.book.orders[o.id] == Order(o.side, o.price, o.remaining)
  }

  ghost predicate OrderAt(v: View, id: nat)
  {
    id in v.book.orders ==>
      && id in v.at && v.at[id] < |v.nodes| && v.at[id] < |v.owner|
      && v.owner[v.at[id]].Listed? && v.nodes[v.at[id]].id == id
  }

  ghost predicate FreeOK(nodes: seq<Node>, owner: seq<Owner>, fl: seq<nat>)
  {
    && Distinct(fl)
    && (forall k :: 0 <= k < |fl| ==> fl[k] < |nodes|)
    && (forall k {:trigger nodes[fl[k]]} :: 0 <= k < |fl| ==> nodes[fl[k]].freeNext == After(fl, k))
    && (forall i :: 0 <= i < |owner| ==> (owner[i].Free? <==> i in fl))
  }

  /** Every price level of the book is on the grid and not empty. */
  ghost predicate Rungs(b: Book, grid: seq<int>)
  {
    forall s, p {:trigger p in SideOf(b, s)} :: p in SideOf(b, s) ==> p in grid && SideOf(b, s)[p] != []
  }

  ghost predicate LooseOK(owner: seq<Owner>, loose: set<nat>)
  {
    && (forall i :: i in loose ==> i < |owner|)
    && (forall i :: 0 <= i < |owner| ==> (owner[i].Loose? <==> i in loose))
  }

  ghost predicate KeysOK(at: set<nat>, orders: set<nat>, extra: set<nat>)
  {
    at == orders + extra && orders !! extra
  }

  ghost predicate Counts(v: View, loose: set<nat>, extra: set<nat>)
  {
    && LooseOK(v.owner, loose) && KeysOK(v.at.Keys, v.book.orders.Keys, extra)
    && |v.freeList| + |v.book.orders| + |loose| == |v.nodes|
  }

  /**
   The arena invariant. `loose` are the nodes that are allocated but in no queue; `extra` are the
   indexed ids that are not orders of the book (the taker being matched, or an id being replaced).
   */
  ghost predicate Sound(v: View, grid: seq<int>, loose: set<nat>, extra: set<nat>)
  {
    && Shape(v, grid)
    && (forall k {:trigger QueueAt(v, k)} :: QueueAt(v, k))
    && (forall k {:trigger RungAt(v, grid, k)} :: RungAt(v, grid, k))
    && (forall i {:trigger NodeAt(v, grid, i)} :: NodeAt(v, grid, i))
    && (forall id {:trigger OrderAt(v, id)} :: OrderAt(v, id))
    && Rungs(v.book, grid)
    && FreeOK(v.nodes, v.owner, v.freeList)
    && Counts(v, loose, extra)
  }

  /** Nodes of queues other than `k` keep their contents and their owner. */
  ghost predicate OnlyTouches(v: View, v': View, k: nat)
  {
    && |v'.nodes| == |v.nodes| && |v'.owner| == |v.owner|
    && (forall i :: 0 <= i < |v.nodes| && i < |v.owner| && v.owner[i].Listed? && v.owner[i].key != k ==>
          v'.nodes[i] == v.nodes[i] && v'.owner[i] == v.owner[i])
  }

  lemma QueueFrame(v: View, v': View, k: nat, j: nat)
    requires OnlyTouches(v, v', k) && j != k && QueueAt(v, j)
    requires j < |v.queues| == |v'.queues| && j < |v.levels| == |v'.levels|
    requires v'.queues[j] == v.queues[j] && v'.levels[j] == v.levels[j]
    ensures QueueAt(v', j) && Ids(v'.nodes, v'.queues[j]) == Ids(v.nodes, v.queues[j])
  {
    var q := v.queues[j];
    forall m | 0 <= m < |q|
      ensures v'.nodes[q[m]] == v.nodes[q[m]] && v'.owner[q[m]] == Listed(j)
    {
      assert v.owner[q[m]] == Listed(j);
    }
    ChainFrame(v.nodes, v'.nodes, q, v.levels[j]);
    TotalFrame(v.nodes, v'.nodes, q);
    IdsFrame(v.nodes, v'.nodes, q);
  }

  /** A step that leaves every listed node, the queues and the book alone. */
  ghost predicate Quiet(v: View, v': View)
  {
    && |v'.nodes| == |v.nodes| == |v.owner| == |v'.owner|
    && v'.queues == v.queues && v'.levels == v.levels && v'.book == v.book
    && (forall id :: id in v.book.orders && id in v.at ==> id in v'.at && v'.at[id] == v.at[id])
    && (forall i :: 0 <= i < |v.owner| ==> (v.owner[i].Listed? || v'.owner[i].Listed? ==>
          v'.nodes[i] == v.nodes[i] && v'.owner[i] == v.owner[i]))
  }

  lemma QuietKeeps(v: View, v': View, grid: seq<int>, loose: set<nat>, loose': set<nat>,
                   extra: set<nat>, extra': set<nat>)
    requires Sound(v, grid, loose, extra) && Quiet(v, v')
    requires FreeOK(v'.nodes, v'.owner, v'.freeList) && Counts(v', loose', extra')
    ensures Sound(v', grid, loose', extra')
  {
    forall k: nat
      ensures QueueAt(v', k) && RungAt(v', grid, k)
    {
      assert QueueAt(v, k) && RungAt(v, grid, k);
      if k < |v.queues| {
        QueueFrame(v, v', |v.queues|, k);
      }
    }
    forall i: nat
      ensures NodeAt(v', grid, i)
    {
      assert NodeAt(v, grid, i);
    }
    forall id
      ensures OrderAt(v', id)
    {
      assert OrderAt(v, id);
    }
  }

  // ---- Allocation, release, edits of the loose node and of the index ----

  ghost function Allocated(v: View): View
    requires v.freeList != [] && v.freeList[0] < |v.nodes| && |v.owner| == |v.nodes|
  {
    var i := v.freeList[0];
    v.(nodes := v.nodes[i := BLANK], owner := v.owner[i := Loose], freeList := v.freeList[1..])
  }

  lemma AllocateKeeps(v: View, grid: seq<int>, loose: set<nat>, extra: set<nat>)
    requires Sound(v, grid, loose, extra) && v.freeList != []
    ensures Sound(Allocated(v), grid, loose + {v.freeList[0]}, extra)
  {
    var i, v', fl := v.freeList[0], Allocated(v), v.freeList;
    assert v.owner[i].Free?;
    forall k | 0 <= k < |fl[1..]|
      ensures v'.nodes[fl[1..][k]].freeNext == After(fl[1..], k)
    {
      assert v.nodes[fl[k + 1]].freeNext == After(fl, k + 1);
    }
    QuietKeeps(v, v', grid, loose, loose + {i}, extra, extra);
  }

  ghost function FreeHead(v: View): nat {
    if v.freeList == [] then INVALID else v.freeList[0]
  }

  ghost function Released(v: View, i: nat): View
    requires i < |v.nodes| && |v.owner| == |v.nodes|
  {
    v.(nodes := v.nodes[i := v.nodes[i].(freeNext := FreeHead(v))], owner := v.owner[i := Free],
       freeList := [i] + v.freeList)
  }

  lemma ReleaseKeeps(v: View, grid: seq<int>, i: nat, loose: set<nat>, extra: set<nat>)
    requires Sound(v, grid, loose, extra) && i in loose
    ensures Sound(Released(v, i), grid, loose - {i}, extra)
  {
    var fl, v' := v.freeList, Released(v, i);
    assert v.owner[i].Loose? && i !in fl;
    forall k | 0 <= k < |v'.freeList|
      ensures v'.nodes[v'.freeList[k]].freeNext == After(v'.freeList, k)
    {
      if k > 0 {
        assert v.nodes[fl[k - 1]].freeNext == After(fl, k - 1);
      }
    }
    QuietKeeps(v, v', grid, loose, loose - {i}, extra, extra);
  }

  /** Writing the payload of the loose node touches no queue. */
  lemma LooseEdit(v: View, grid: seq<int>, i: nat, node: Node, loose: set<nat>, extra: set<nat>)
    requires Sound(v, grid, loose, extra) && i in loose
    ensures Sound(v.(nodes := v.nodes[i := node]), grid, loose, extra)
  {
    assert v.owner[i].Loose? && i !in v.freeList;
    QuietKeeps(v, v.(nodes := v.nodes[i := node]), grid, loose, loose, extra, extra);
  }

  /** Indexing a further id, or dropping one that is not an order, touches no queue. */
  lemma IndexEdit(v: View, at: map<nat, nat>, grid: seq<int>, loose: set<nat>, extra: set<nat>, extra': set<nat>)
    requires Sound(v, grid, loose, extra)
    requires at.Keys == v.book.orders.Keys + extra' && v.book.orders.Keys !! extra'
    requires forall id :: id in v.book.orders ==> at[id] == v.at[id]
    ensures Sound(v.(at := at), grid, loose, extra')
  {
    QuietKeeps(v, v.(at := at), grid, loose, loose, extra, extra');
  }

  // ---- A step on one queue ----

  /** Only node `i` changes beyond its links, and only nodes of queue `k` (and `i`) are relinked. */
  ghost predicate NodesStep(v: View, v': View, k: nat, i: nat)
  {
    && i < |v.nodes| == |v.owner| && OnlyTouches(v, v', k)
    && (forall j :: 0 <= j < |v.nodes| && j != i ==>
          v'.nodes[j] == v.nodes[j].(previous := v'.nodes[j].previous, next := v'.nodes[j].next)
          && v'.owner[j] == v.owner[j])
    && v'.nodes[i].id == v.nodes[i].id && v'.nodes[i].freeNext == v.nodes[i].freeNext
  }

  /** Queue `k` alone changes and keeps its other members. */
  ghost predicate QueuesStep(v: View, v': View, k: nat, i: nat)
  {
    && |v'.queues| == |v.queues| && |v'.levels| == |v.levels| && k < |v.queues|
    && (forall j :: 0 <= j < |v.queues| && j != k ==> v'.queues[j] == v.queues[j])
    && (forall j :: 0 <= j < |v.levels| && j != k ==> v'.levels[j] == v.levels[j])
    && (forall j :: j in v.queues[k] && j != i ==> j in v'.queues[k])
  }

  /** Order `id` and the rung of key `k` alone change. */
  ghost predicate BookStep(b: Book, b': Book, grid: seq<int>, k: nat, id: nat)
  {
    && k < 2 * |grid|
    && (forall x :: x != id ==> (x in b'.orders <==> x in b.orders))
    && (forall x :: x != id && x in b.orders ==> b'.orders[x] == b.orders[x])
    && (forall j :: 0 <= j < 2 * |grid| && j != k ==>
          Queue(b', KeySide(grid, j), KeyPrice(grid, j)) == Queue(b, KeySide(grid, j), KeyPrice(grid, j)))
    && Rungs(b', grid)
  }

  lemma OtherQueues(v: View, v': View, grid: seq<int>, k: nat, i: nat, id: nat)
    requires Shape(v, grid) && NodesStep(v, v', k, i) && QueuesStep(v, v', k, i)
    requires BookStep(v.book, v'.book, grid, k, id)
    ensures forall j: nat {:trigger QueueAt(v', j)} | j != k && QueueAt(v, j) :: QueueAt(v', j)
    ensures forall j: nat {:trigger RungAt(v', grid, j)} | j != k && QueueAt(v, j) && RungAt(v, grid, j) ::
              RungAt(v', grid, j)
  {
    forall j: nat | j != k && QueueAt(v, j)
      ensures QueueAt(v', j) && (RungAt(v, grid, j) ==> RungAt(v', grid, j))
    {
      if j < |v.queues| {
        QueueFrame(v, v', k, j);
      }
    }
  }

  lemma OtherNodes(v: View, v': View, grid: seq<int>, k: nat, i: nat, id: nat)
    requires Shape(v, grid) && NodesStep(v, v', k, i) && QueuesStep(v, v', k, i)
    requires BookStep(v.book, v'.book, grid, k, id)
    requires v'.at == v.at && v.nodes[i].id == id && id in v.at && v.at[id] == i
    ensures forall j: nat {:trigger NodeAt(v', grid, j)} | j != i && NodeAt(v, grid, j) :: NodeAt(v', grid, j)
    ensures forall x: nat {:trigger OrderAt(v', x)} | x != id && OrderAt(v, x) :: OrderAt(v', x)
  {
  }

  lemma OneQueueKeeps(v: View, v': View, grid: seq<int>, k: nat, i: nat, id: nat,
                      loose: set<nat>, loose': set<nat>, extra: set<nat>, extra': set<nat>)
    requires Sound(v, grid, loose, extra) && Shape(v', grid)
    requires NodesStep(v, v', k, i) && QueuesStep(v, v', k, i) && BookStep(v.book, v'.book, grid, k, id)
    requires v'.freeList == v.freeList && v'.at == v.at
    requires QueueAt(v', k) && RungAt(v', grid, k) && NodeAt(v', grid, i) && OrderAt(v', id)
    requires v.nodes[i].id == id && id in v.at && v.at[id] == i && !v.owner[i].Free? && !v'.owner[i].Free?
    requires Counts(v', loose', extra')
    ensures Sound(v', grid, loose', extra')
  {
    OtherQueues(v, v', grid, k, i, id);
    OtherNodes(v, v', grid, k, i, id);
    forall j: nat
      ensures QueueAt(v', j) && RungAt(v', grid, j) && NodeAt(v', grid, j) && OrderAt(v', j)
    {
      assert QueueAt(v, j) && RungAt(v, grid, j) && NodeAt(v, grid, j) && OrderAt(v, j);
    }
    FreeFrame(v.nodes, v'.nodes, v.owner, v'.owner, v.freeList);
  }

  lemma FreeFrame(nodes: seq<Node>, ns: seq<Node>, owner: seq<Owner>, owner': seq<Owner>, fl: seq<nat>)
    requires FreeOK(nodes, owner, fl) && |ns| == |nodes| && |owner'| == |owner|
    requires forall i :: 0 <= i < |nodes| ==> ns[i].freeNext == nodes[i].freeNext
    requires forall i :: 0 <= i < |owner| ==> (owner'[i].Free? <==> owner[i].Free?)
    ensures FreeOK(ns, owner', fl)
  {
    forall k | 0 <= k < |fl|
      ensures ns[fl[k]].freeNext == After(fl, k)
    {
      assert nodes[fl[k]].freeNext == After(fl, k);
    }
  }

  lemma QueueAfterPut(b: Book, s: Side, p: int, q: seq<nat>, s': Side, p': int)
    ensures Queue(PutQueue(b, s, p, q), s', p') == if s' == s && p' == p then q else Queue(b, s', p')
  {
  }

  lemma PutBookStep(b: Book, orders: map<nat, Order>, grid: seq<int>, k: nat, id: nat, q: seq<nat>)
    requires Increasing(grid) && k < 2 * |grid| && Rungs(b, grid)
    requires forall x :: x != id ==> (x in orders <==> x in b.orders)
    requires forall x :: x != id && x in b.orders ==> orders[x] == b.orders[x]
    ensures BookStep(b, PutQueue(b.(orders := orders), KeySide(grid, k), KeyPrice(grid, k), q), grid, k, id)
  {
    var s, p := KeySide(grid, k), KeyPrice(grid, k);
    var b' := PutQueue(b.(orders := orders), s, p, q);
    forall s', p' | p' in SideOf(b', s')
      ensures p' in grid && SideOf(b', s')[p'] != []
    {
      if s' != s || p' != p {
        assert p' in SideOf(b, s');
      }
    }
    forall j | 0 <= j < 2 * |grid| && j != k
      ensures Queue(b', KeySide(grid, j), KeyPrice(grid, j)) == Queue(b, KeySide(grid, j), KeyPrice(grid, j))
    {
      KeysDiffer(grid, j, k);
    }
  }

  // ---- Joining a queue ----

  ghost function AppendedLevel(lvl: PriceLevel, i: nat, remaining: nat): PriceLevel {
    PriceLevel(if lvl.tail == INVALID then i else lvl.head, i, lvl.total + remaining)
  }

  ghost function Appended(v: View, i: nat, k: nat): View
    requires i < |v.nodes| && i < |v.owner| && k < |v.queues| && k < |v.levels|
  {
    var o, lvl := v.nodes[i], v.levels[k];
    v.(nodes := Linked(v.nodes, lvl, i), levels := v.levels[k := AppendedLevel(lvl, i, o.remaining)],
       queues := v.queues[k := v.queues[k] + [i]], owner := v.owner[i := Listed(k)],
       book := Add(v.book, o.id, Order(o.side, o.price, o.remaining)))
  }

  /** Node `i` is loose, indexed, and filled in for queue `k`. */
  ghost predicate Appendable(v: View, grid: seq<int>, i: nat, k: nat, extra: set<nat>)
  {
    && i < |v.nodes| && k < 2 * |grid|
    && var o := v.nodes[i];
       && o.side == KeySide(grid, k) && o.price == KeyPrice(grid, k) && k == KeyOf(grid, o.side, o.level)
       && o.next == INVALID && o.id in extra && o.id in v.at && v.at[o.id] == i
  }

  lemma AppendQueue(nodes: seq<Node>, owner: seq<Owner>, q: seq<nat>, lvl: PriceLevel, k: nat, i: nat)
    requires QueueOK(nodes, owner, q, lvl, k) && i < |nodes| == |owner| && |nodes| <= INVALID
    requires owner[i].Loose? && nodes[i].next == INVALID
    ensures QueueOK(Linked(nodes, lvl, i), owner[i := Listed(k)], q + [i], AppendedLevel(lvl, i, nodes[i].remaining), k)
    ensures Ids(Linked(nodes, lvl, i), q + [i]) == Ids(nodes, q) + [nodes[i].id]
  {
    var ns := Linked(nodes, lvl, i);
    assert i !in q;
    AppendChain(nodes, q, lvl, i);
    LinkedPayload(nodes, lvl, i);
    TotalFrame(nodes, ns, q);
    TotalAppend(ns, q, i);
    IdsFrame(nodes, ns, q);
    assert Ids(ns, q + [i]) == Ids(ns, q) + [nodes[i].id];
  }

  lemma AppendNodes(v: View, grid: seq<int>, i: nat, k: nat, loose: set<nat>, extra: set<nat>)
    requires Sound(v, grid, loose, extra) && i in loose && Appendable(v, grid, i, k, extra)
    ensures NodesStep(v, Appended(v, i, k), k, i)
  {
    var lvl := v.levels[k];
    assert QueueAt(v, k);
    assert lvl.tail < |v.nodes| ==> v.owner[lvl.tail] == Listed(k);
    assert v.owner[i].Loose?;
  }

  lemma AppendBook(v: View, grid: seq<int>, i: nat, k: nat, loose: set<nat>, extra: set<nat>)
    requires Increasing(grid) && Sound(v, grid, loose, extra) && i in loose && Appendable(v, grid, i, k, extra)
    ensures var o, b' := v.nodes[i], Appended(v, i, k).book;
            BookStep(v.book, b', grid, k, o.id)
            && Queue(b', o.side, o.price) == Queue(v.book, o.side, o.price) + [o.id]
  {
    var o := v.nodes[i];
    var orders := v.book.orders[o.id := Order(o.side, o.price, o.remaining)];
    PutBookStep(v.book, orders, grid, k, o.id, Queue(v.book, o.side, o.price) + [o.id]);
    QueueAfterPut(v.book.(orders := orders), o.side, o.price, Queue(v.book, o.side, o.price) + [o.id], o.side, o.price);
  }

  lemma AppendHere(v: View, grid: seq<int>, i: nat, k: nat, loose: set<nat>, extra: set<nat>)
    requires Increasing(grid) && Sound(v, grid, loose, extra) && i in loose && Appendable(v, grid, i, k, extra)
    ensures QueueAt(Appended(v, i, k), k) && RungAt(Appended(v, i, k), grid, k)
  {
    assert v.owner[i].Loose? && QueueAt(v, k) && RungAt(v, grid, k);
    AppendQueue(v.nodes, v.owner, v.queues[k], v.levels[k], k, i);
    AppendBook(v, grid, i, k, loose, extra);
  }

  lemma AppendCounts(v: View, grid: seq<int>, i: nat, k: nat, loose: set<nat>, extra: set<nat>)
    requires Counts(v, loose, extra) && i in loose && |v.owner| == |v.nodes|
    requires k < |v.queues| && k < |v.levels| && Appendable(v, grid, i, k, extra)
    ensures Counts(Appended(v, i, k), loose - {i}, extra - {v.nodes[i].id})
  {
    var o, v' := v.nodes[i], Appended(v, i, k);
    assert v'.book.orders == v.book.orders[o.id := Order(o.side, o.price, o.remaining)];
    assert loose == (loose - {i}) + {i};
  }

  lemma AppendEntry(v: View, grid: seq<int>, i: nat, k: nat, loose: set<nat>, extra: set<nat>)
    requires Sound(v, grid, loose, extra) && i in loose && Appendable(v, grid, i, k, extra)
    ensures var v' := Appended(v, i, k); NodeAt(v', grid, i) && OrderAt(v', v.nodes[i].id)
  {
    LinkedPayload(v.nodes, v.levels[k], i);
  }

  lemma AppendQueues(v: View, i: nat, k: nat)
    requires i < |v.nodes| && i < |v.owner| && k < |v.queues| && k < |v.levels|
    ensures QueuesStep(v, Appended(v, i, k), k, i)
  {
  }

  lemma AppendKeeps(v: View, grid: seq<int>, i: nat, k: nat, loose: set<nat>, extra: set<nat>)
    requires Increasing(grid) && Sound(v, grid, loose, extra) && i in loose && Appendable(v, grid, i, k, extra)
    ensures Sound(Appended(v, i, k), grid, loose - {i}, extra - {v.nodes[i].id})
  {
    var o, v' := v.nodes[i], Appended(v, i, k);
    AppendHere(v, grid, i, k, loose, extra);
    AppendCounts(v, grid, i, k, loose, extra);
    AppendEntry(v, grid, i, k, loose, extra);
    AppendNodes(v, grid, i, k, loose, extra);
    AppendQueues(v, i, k);
    AppendBook(v, grid, i, k, loose, extra);
    OneQueueKeeps(v, v', grid, k, i, o.id, loose, loose - {i}, extra, extra - {o.id});
  }

  // ---- Leaving a queue ----

  ghost function DetachedLevel(lvl: PriceLevel, o: Node): PriceLevel
    requires o.remaining <= lvl.total
  {
    PriceLevel(if o.previous == INVALID then o.next else lvl.head, if o.next == INVALID then o.previous else lvl.tail,
               lvl.total - o.remaining)
  }

  ghost function Position(q: seq<nat>, i: nat): (m: nat)
    requires i in q
    ensures m < |q| && q[m] == i
  {
    var m: nat :| m < |q| && q[m] == i;
    m
  }

  ghost predicate Unlinkable(v: View, i: nat, k: nat)
  {
    && i < |v.nodes| && i < |v.owner| && v.owner[i] == Listed(k) && k < |v.queues| && k < |v.levels| && i in v.queues[k]
    && v.nodes[i].remaining <= v.levels[k].total && v.nodes[i].id in v.book.orders
  }

  ghost function Unlinked(v: View, i: nat, k: nat): View
    requires Unlinkable(v, i, k)
  {
    var o := v.nodes[i];
    v.(nodes := Detached(v.nodes, i), levels := v.levels[k := DetachedLevel(v.levels[k], o)],
       queues := v.queues[k := Cut(v.queues[k], Position(v.queues[k], i))], owner := v.owner[i := Loose],
       book := Remove(v.book, o.id))
  }

  /** The cut queue keeps exactly the other elements. */
  lemma CutElements(q: seq<nat>, m: nat)
    requires Distinct(q) && m < |q|
    ensures forall j :: 0 <= j < |Cut(q, m)| ==> Cut(q, m)[j] in q && Cut(q, m)[j] != q[m]
    ensures forall x :: x in q && x != q[m] ==> x in Cut(q, m)
  {
    var c := Cut(q, m);
    forall j | 0 <= j < |c|
      ensures c[j] in q && c[j] != q[m]
    {
      var n := if j < m then j else j + 1;
      assert c[j] == q[n] && n != m;
    }
    forall x | x in q && x != q[m]
      ensures x in c
    {
      var j :| 0 <= j < |q| && q[j] == x;
      assert c[if j < m then j else j - 1] == x;
    }
  }

  lemma UnlinkTotal(nodes: seq<Node>, q: seq<nat>, m: nat)
    requires m < |q| && q[m] < |nodes|
    ensures Total(nodes, q) == Total(Detached(nodes, q[m]), Cut(q, m)) + nodes[q[m]].remaining
  {
    TotalCut(nodes, q, m);
    DetachedPayload(nodes, q[m]);
    TotalFrame(nodes, Detached(nodes, q[m]), Cut(q, m));
  }

  lemma UnlinkOwners(owner: seq<Owner>, q: seq<nat>, k: nat, m: nat)
    requires Distinct(q) && m < |q| && forall j :: 0 <= j < |q| ==> q[j] < |owner| && owner[q[j]] == Listed(k)
    ensures forall j :: 0 <= j < |Cut(q, m)| ==>
              Cut(q, m)[j] < |owner| && owner[q[m] := Loose][Cut(q, m)[j]] == Listed(k)
  {
    CutElements(q, m);
  }

  lemma UnlinkQueue(nodes: seq<Node>, owner: seq<Owner>, q: seq<nat>, lvl: PriceLevel, k: nat, m: nat)
    requires QueueOK(nodes, owner, q, lvl, k) && |owner| == |nodes| <= INVALID && m < |q|
    ensures nodes[q[m]].remaining <= lvl.total
    ensures QueueOK(Detached(nodes, q[m]), owner[q[m] := Loose], Cut(q, m), DetachedLevel(lvl, nodes[q[m]]), k)
  {
    UnlinkTotal(nodes, q, m);
    UnlinkChain(nodes, q, lvl, m);
    UnlinkOwners(owner, q, k, m);
  }

  lemma UnlinkIds(nodes: seq<Node>, q: seq<nat>, m: nat)
    requires m < |q| && q[m] < |nodes|
    requires forall j :: 0 <= j < m ==> IdAt(nodes, q[j]) != IdAt(nodes, q[m])
    ensures Ids(Detached(nodes, q[m]), Cut(q, m)) == Without(Ids(nodes, q), nodes[q[m]].id)
  {
    DetachedPayload(nodes, q[m]);
    WithoutAt(Ids(nodes, q), m);
    IdsFrame(nodes, Detached(nodes, q[m]), Cut(q, m));
    IdsCut(nodes, q, m);
  }

  lemma IdsCut(nodes: seq<Node>, q: seq<nat>, m: nat)
    requires m < |q|
    ensures Ids(nodes, Cut(q, m)) == Ids(nodes, q)[..m] + Ids(nodes, q)[m + 1..]
  {
    var c, ids := Cut(q, m), Ids(nodes, q);
    forall j | 0 <= j < |c|
      ensures IdAt(nodes, c[j]) == (ids[..m] + ids[m + 1..])[j]
    {
      assert c[j] == q[if j < m then j else j + 1];
    }
  }

  /** Distinct nodes of the arena hold distinct ids. */
  lemma DistinctIds(v: View, grid: seq<int>, loose: set<nat>, extra: set<nat>, i: nat, j: nat)
    requires Sound(v, grid, loose, extra) && i < |v.nodes| && j < |v.nodes| && i != j
    requires v.owner[i].Listed? && v.owner[j].Listed?
    ensures v.nodes[i].id != v.nodes[j].id
  {
    assert NodeAt(v, grid, i) && NodeAt(v, grid, j);
  }

  /** A listed node: its queue, its place, its order. */
  lemma ListedFacts(v: View, grid: seq<int>, loose: set<nat>, extra: set<nat>, i: nat, k: nat)
    requires Sound(v, grid, loose, extra) && i < |v.nodes| && v.owner[i] == Listed(k)
    ensures k < 2 * |grid| && i in v.queues[k] && v.nodes[i].id in v.book.orders
    ensures v.nodes[i].remaining <= v.levels[k].total
    ensures var m, q := Position(v.queues[k], i), v.queues[k];
            forall j :: 0 <= j < m ==> IdAt(v.nodes, q[j]) != IdAt(v.nodes, q[m])
  {
    assert NodeAt(v, grid, i) && QueueAt(v, k);
    var m, q := Position(v.queues[k], i), v.queues[k];
    TotalCut(v.nodes, q, m);
    forall j | 0 <= j < m
      ensures IdAt(v.nodes, q[j]) != IdAt(v.nodes, q[m])
    {
      assert v.owner[q[j]] == Listed(k);
      DistinctIds(v, grid, loose, extra, q[j], i);
    }
  }

  lemma UnlinkTouches(v: View, grid: seq<int>, i: nat, k: nat, loose: set<nat>, extra: set<nat>)
    requires Sound(v, grid, loose, extra) && Unlinkable(v, i, k)
    ensures OnlyTouches(v, Unlinked(v, i, k), k)
  {
    hide RungAt, NodeAt, OrderAt, FreeOK, Counts, Rungs;
    var q, o := v.queues[k], v.nodes[i];
    var m := Position(q, i);
    assert QueueAt(v, k) && q[m] == i;
    assert o.previous == Before(q, m) && o.next == After(q, m);
    assert o.previous < |v.nodes| ==> v.owner[o.previous] == Listed(k);
    assert o.next < |v.nodes| ==> v.owner[o.next] == Listed(k);
  }

  lemma UnlinkNodes(v: View, grid: seq<int>, i: nat, k: nat, loose: set<nat>, extra: set<nat>)
    requires Sound(v, grid, loose, extra) && Unlinkable(v, i, k)
    ensures NodesStep(v, Unlinked(v, i, k), k, i)
  {
    UnlinkTouches(v, grid, i, k, loose, extra);
    DetachedPayload(v.nodes, i);
  }

  lemma UnlinkQueues(v: View, i: nat, k: nat)
    requires Unlinkable(v, i, k) && Distinct(v.queues[k])
    ensures QueuesStep(v, Unlinked(v, i, k), k, i)
  {
    CutElements(v.queues[k], Position(v.queues[k], i));
  }

  lemma UnlinkBook(v: View, grid: seq<int>, i: nat, k: nat, loose: set<nat>, extra: set<nat>)
    requires Increasing(grid) && Sound(v, grid, loose, extra) && Unlinkable(v, i, k)
    ensures var o, b' := v.nodes[i], Unlinked(v, i, k).book;
            BookStep(v.book, b', grid, k, o.id)
            && Queue(b', o.side, o.price) == Without(Queue(v.book, o.side, o.price), o.id)
  {
    assert NodeAt(v, grid, i);
    var o := v.nodes[i];
    var orders, rest := v.book.orders - {o.id}, Without(Queue(v.book, o.side, o.price), o.id);
    PutBookStep(v.book, orders, grid, k, o.id, rest);
    QueueAfterPut(v.book.(orders := orders), o.side, o.price, rest, o.side, o.price);
  }

  lemma UnlinkHere(v: View, grid: seq<int>, i: nat, k: nat, loose: set<nat>, extra: set<nat>)
    requires Increasing(grid) && Sound(v, grid, loose, extra) && Unlinkable(v, i, k)
    ensures QueueAt(Unlinked(v, i, k), k) && RungAt(Unlinked(v, i, k), grid, k)
  {
    ListedFacts(v, grid, loose, extra, i, k);
    assert QueueAt(v, k) && RungAt(v, grid, k) && NodeAt(v, grid, i);
    UnlinkQueue(v.nodes, v.owner, v.queues[k], v.levels[k], k, Position(v.queues[k], i));
    UnlinkIds(v.nodes, v.queues[k], Position(v.queues[k], i));
    UnlinkBook(v, grid, i, k, loose, extra);
  }

  lemma LooseMore(owner: seq<Owner>, loose: set<nat>, i: nat)
    requires LooseOK(owner, loose) && i < |owner| && !owner[i].Loose?
    ensures LooseOK(owner[i := Loose], loose + {i}) && |loose + {i}| == |loose| + 1
  {
  }

  lemma KeyMoves(at: set<nat>, orders: map<nat, Order>, extra: set<nat>, id: nat)
    requires KeysOK(at, orders.Keys, extra) && id in orders
    ensures KeysOK(at, (orders - {id}).Keys, extra + {id}) && |orders - {id}| == |orders| - 1
  {
    assert (orders - {id}).Keys == orders.Keys - {id};
    Smaller(orders, id);
  }

  lemma UnlinkCounts(v: View, i: nat, k: nat, loose: set<nat>, extra: set<nat>)
    requires Counts(v, loose, extra) && Unlinkable(v, i, k) && |v.owner| == |v.nodes|
    ensures Counts(Unlinked(v, i, k), loose + {i}, extra + {v.nodes[i].id})
  {
    assert Unlinked(v, i, k).book.orders == v.book.orders - {v.nodes[i].id};
    KeyMoves(v.at.Keys, v.book.orders, extra, v.nodes[i].id);
    LooseMore(v.owner, loose, i);
  }

  lemma UnlinkEntry(v: View, grid: seq<int>, i: nat, k: nat)
    requires Unlinkable(v, i, k) && |v.owner| == |v.nodes|
    ensures NodeAt(Unlinked(v, i, k), grid, i) && OrderAt(Unlinked(v, i, k), v.nodes[i].id)
  {
    assert Unlinked(v, i, k).book.orders == v.book.orders - {v.nodes[i].id};
  }

  lemma UnlinkKeeps(v: View, grid: seq<int>, i: nat, k: nat, loose: set<nat>, extra: set<nat>)
    requires Increasing(grid) && Sound(v, grid, loose, extra) && Unlinkable(v, i, k)
    ensures Sound(Unlinked(v, i, k), grid, loose + {i}, extra + {v.nodes[i].id})
  {
    var o, v' := v.nodes[i], Unlinked(v, i, k);
    assert NodeAt(v, grid, i);
    UnlinkHere(v, grid, i, k, loose, extra);
    UnlinkNodes(v, grid, i, k, loose, extra);
    assert QueueAt(v, k);
    UnlinkQueues(v, i, k);
    UnlinkBook(v, grid, i, k, loose, extra);
    UnlinkCounts(v, i, k, loose, extra);
    UnlinkEntry(v, grid, i, k);
    OneQueueKeeps(v, v', grid, k, i, o.id, loose, loose + {i}, extra, extra + {o.id});
  }

  // ---- Reducing in place ----

  ghost predicate Shrinkable(v: View, i: nat, k: nat, quantity: nat)
  {
    && Unlinkable(v, i, k) && quantity <= v.nodes[i].remaining && quantity <= v.levels[k].total
    && quantity <= v.book.orders[v.nodes[i].id].remaining
  }

  ghost function Shrunk(v: View, i: nat, k: nat, quantity: nat): View
    requires Shrinkable(v, i, k, quantity)
  {
    var o, lvl := v.nodes[i], v.levels[k];
    v.(nodes := v.nodes[i := o.(remaining := o.remaining - quantity)],
       levels := v.levels[k := lvl.(total := lvl.total - quantity)], book := Shrink(v.book, o.id, quantity))
  }

  lemma ShrinkTotal(nodes: seq<Node>, ns: seq<Node>, q: seq<nat>, m: nat)
    requires Distinct(q) && m < |q| && q[m] < |nodes| == |ns|
    requires forall j :: 0 <= j < |nodes| && j != q[m] ==> ns[j] == nodes[j]
    ensures Total(nodes, q) - nodes[q[m]].remaining == Total(ns, q) - ns[q[m]].remaining
  {
    TotalCut(nodes, q, m);
    TotalCut(ns, q, m);
    CutElements(q, m);
    TotalFrame(nodes, ns, Cut(q, m));
  }

  lemma ShrinkBook(b: Book, grid: seq<int>, k: nat, id: nat, quantity: nat)
    requires Rungs(b, grid) && k < 2 * |grid| && id in b.orders && quantity <= b.orders[id].remaining
    ensures BookStep(b, Shrink(b, id, quantity), grid, k, id)
  {
    var b' := Shrink(b, id, quantity);
    assert SideOf(b', Buy) == SideOf(b, Buy) && SideOf(b', Sell) == SideOf(b, Sell);
  }

  lemma ShrinkHere(v: View, grid: seq<int>, i: nat, k: nat, quantity: nat)
    requires Shape(v, grid) && Shrinkable(v, i, k, quantity) && QueueAt(v, k)
    ensures QueueAt(Shrunk(v, i, k, quantity), k)
  {
    var v', q := Shrunk(v, i, k, quantity), v.queues[k];
    ShrinkTotal(v.nodes, v'.nodes, q, Position(q, i));
    ChainFrame(v.nodes, v'.nodes, q, v.levels[k]);
  }

  lemma ShrinkRung(v: View, grid: seq<int>, i: nat, k: nat, quantity: nat)
    requires Shape(v, grid) && Shrinkable(v, i, k, quantity) && RungAt(v, grid, k)
    ensures RungAt(Shrunk(v, i, k, quantity), grid, k)
  {
    IdsFrame(v.nodes, Shrunk(v, i, k, quantity).nodes, v.queues[k]);
  }

  lemma ShrinkNodes(v: View, grid: seq<int>, i: nat, k: nat, quantity: nat)
    requires Shape(v, grid) && Shrinkable(v, i, k, quantity)
    ensures NodesStep(v, Shrunk(v, i, k, quantity), k, i) && QueuesStep(v, Shrunk(v, i, k, quantity), k, i)
  {
  }

  lemma ShrinkEntry(v: View, grid: seq<int>, i: nat, k: nat, quantity: nat, loose: set<nat>, extra: set<nat>)
    requires Shape(v, grid) && Counts(v, loose, extra) && Shrinkable(v, i, k, quantity) && NodeAt(v, grid, i)
    ensures var v', id := Shrunk(v, i, k, quantity), v.nodes[i].id;
            Counts(v', loose, extra) && NodeAt(v', grid, i) && OrderAt(v', id)
  {
    assert Shrunk(v, i, k, quantity).book.orders.Keys == v.book.orders.Keys;
  }

  lemma ShrinkKeeps(v: View, grid: seq<int>, i: nat, k: nat, quantity: nat, loose: set<nat>, extra: set<nat>)
    requires Sound(v, grid, loose, extra) && Shrinkable(v, i, k, quantity)
    ensures Sound(Shrunk(v, i, k, quantity), grid, loose, extra)
  {
    var o, v' := v.nodes[i], Shrunk(v, i, k, quantity);
    assert QueueAt(v, k) && RungAt(v, grid, k) && NodeAt(v, grid, i);
    ShrinkHere(v, grid, i, k, quantity);
    ShrinkRung(v, grid, i, k, quantity);
    ShrinkNodes(v, grid, i, k, quantity);
    ShrinkEntry(v, grid, i, k, quantity, loose, extra);
    ShrinkBook(v.book, grid, k, o.id, quantity);
    OneQueueKeeps(v, v', grid, k, i, o.id, loose, loose, extra, extra);
  }
}
