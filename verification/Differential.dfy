/** The dense book and the reference book answer every history of grid-priced requests alike. */
module Differential {
  import opened Collections
  import opened Machine
  import opened Books
  import opened BookLaws
  import opened DenseBooks
  import opened ReferenceBooks

  datatype Request =
    | Submit(order: OrderRequest)
    | Cancel(id: nat)
    | Modify(id: nat, price: int, quantity: nat)

  /** The request stays inside what both books were configured for. */
  predicate GridPriced(grid: seq<int>, r: Request) {
    match r
    case Submit(o) => o.id != U64_MAX && (o.kind.Limit? ==> o.price in grid)
    case Cancel(_) => true
    case Modify(_, price, _) => price in grid
  }

  ghost function DenseStep(b: Book, capacity: nat, grid: seq<int>, r: Request): Result {
    match r
    case Submit(o) => DenseSubmit(b, capacity, grid, o)
    case Cancel(id) => Books.Cancel(b, id)
    case Modify(id, price, quantity) => DenseModify(b, grid, id, price, quantity)
  }

  ghost function ReferenceStep(b: Book, capacity: nat, r: Request): Result {
    match r
    case Submit(o) => ReferenceSubmit(b, capacity, o)
    case Cancel(id) => Books.Cancel(b, id)
    case Modify(id, price, quantity) => ReferenceModify(b, capacity, id, price, quantity)
  }

  /** Everything a history from the empty book maintains. */
  ghost predicate Sane(b: Book, capacity: nat)
  {
    WF(b) && Uncrossed(b) && 0 !in b.orders && |b.orders| <= capacity
  }

  /**
   The two books part ways on a submission exactly when it passes the checks they share and only
   one of them takes its id and price.
   */
  lemma SubmitAgreesIff(b: Book, capacity: nat, grid: seq<int>, o: OrderRequest)
    ensures DenseSubmit(b, capacity, grid, o) == ReferenceSubmit(b, capacity, o)
            <==> (o.id == 0 || o.quantity == 0 || o.id in b.orders || |b.orders| >= capacity
                  || ((o.id != U64_MAX && (o.kind.Limit? ==> o.price in grid)) <==> (o.kind.Limit? ==> o.price > 0)))
  {
  }

  /** Re-pricing in place and release-and-resubmit agree exactly when both take the price or neither does. */
  lemma ModifyAgreesIff(b: Book, capacity: nat, grid: seq<int>, id: nat, price: int, quantity: nat)
    requires Sane(b, capacity)
    ensures DenseModify(b, grid, id, price, quantity) == ReferenceModify(b, capacity, id, price, quantity)
            <==> (id !in b.orders || quantity == 0 || (price in grid <==> price > 0))
  {
    if id in b.orders {
      Smaller(b.orders, id);
    }
  }

  lemma EmptySane(capacity: nat)
    ensures Sane(EMPTY, capacity)
  {
  }

  lemma ExecuteSize(b: Book, t: Taker, quantity: nat)
    requires WF(b) && Uncrossed(b) && t.id !in b.orders && quantity > 0
    ensures |Execute(b, t, quantity).book.orders| <= |b.orders| + 1
  {
    ExecuteKeeps(b, t, quantity);
    CardinalityMonotone(Execute(b, t, quantity).book.orders.Keys, b.orders.Keys + {t.id});
  }

  lemma RemoveSane(b: Book, capacity: nat, id: nat)
    requires Sane(b, capacity) && id in b.orders
    ensures Sane(Remove(b, id), capacity) && |Remove(b, id).orders| < capacity && id !in Remove(b, id).orders
  {
    RemoveKeeps(b, id);
    RemoveKeepsUncrossed(b, id);
    Smaller(b.orders, id);
  }

  lemma SubmitSane(b: Book, capacity: nat, o: OrderRequest)
    requires Sane(b, capacity)
    ensures Sane(ReferenceSubmit(b, capacity, o).book, capacity)
  {
    if ReferenceSubmit(b, capacity, o).ok {
      ExecuteKeeps(b, Taker(o.id, o.side, o.kind, o.price), o.quantity);
      ExecuteSize(b, Taker(o.id, o.side, o.kind, o.price), o.quantity);
    }
  }

  /** No request breaks a book: it stays well-formed, within capacity and uncrossed. */
  lemma StepKeeps(b: Book, capacity: nat, r: Request)
    requires Sane(b, capacity)
    ensures Sane(ReferenceStep(b, capacity, r).book, capacity)
  {
    match r {
      case Submit(o) =>
        SubmitSane(b, capacity, o);
      case Cancel(id) =>
        if id in b.orders {
          RemoveSane(b, capacity, id);
        }
      case Modify(id, price, quantity) =>
        if id in b.orders && price > 0 && quantity > 0 {
          RemoveSane(b, capacity, id);
          SubmitSane(Remove(b, id), capacity, OrderRequest(id, b.orders[id].side, Limit, price, quantity));
        }
    }
  }

  lemma StepAgrees(b: Book, capacity: nat, grid: seq<int>, r: Request)
    requires Sane(b, capacity) && GridPriced(grid, r) && forall p :: p in grid ==> p > 0
    ensures DenseStep(b, capacity, grid, r) == ReferenceStep(b, capacity, r)
  {
    if r.Modify? && r.id in b.orders {
      Smaller(b.orders, r.id);
    }
  }

  ghost function DenseRun(b: Book, capacity: nat, grid: seq<int>, rs: seq<Request>): (Book, seq<Result>)
    decreases |rs|
  {
    if rs == [] then (b, []) else
      var r := DenseStep(b, capacity, grid, rs[0]);
      var rest := DenseRun(r.book, capacity, grid, rs[1..]);
      (rest.0, [r] + rest.1)
  }

  ghost function ReferenceRun(b: Book, capacity: nat, rs: seq<Request>): (Book, seq<Result>)
    decreases |rs|
  {
    if rs == [] then (b, []) else
      var r := ReferenceStep(b, capacity, rs[0]);
      var rest := ReferenceRun(r.book, capacity, rs[1..]);
      (rest.0, [r] + rest.1)
  }

  /** Equal answers, trade and update traces and books after every request, and never a crossed book. */
  lemma {:induction false} HistoriesAgree(b: Book, capacity: nat, grid: seq<int>, rs: seq<Request>)
    requires Sane(b, capacity) && forall p :: p in grid ==> p > 0
    requires forall i :: 0 <= i < |rs| ==> GridPriced(grid, rs[i])
    ensures DenseRun(b, capacity, grid, rs) == ReferenceRun(b, capacity, rs)
    ensures Sane(DenseRun(b, capacity, grid, rs).0, capacity)
    decreases |rs|
  {
    if rs != [] {
      StepAgrees(b, capacity, grid, rs[0]);
      StepKeeps(b, capacity, rs[0]);
      HistoriesAgree(ReferenceStep(b, capacity, rs[0]).book, capacity, grid, rs[1..]);
    }
  }

  method DenseAnswer(dense: DensePriceOrderBook, r: Request) returns (ok: bool, log: seq<Event>)
    requires dense.Valid()
    modifies dense, dense.nodes, dense.bids, dense.asks, dense.bidBits, dense.askBits, dense.index, dense.index.entries
    ensures dense.Valid()
    ensures Result(ok, dense.view.book, log) == DenseStep(old(dense.view).book, dense.nodes.Length, dense.grid, r)
  {
    match r {
      case Submit(o) => ok, log := dense.Submit(o);
      case Cancel(id) => ok, log := dense.Cancel(id);
      case Modify(id, price, quantity) => ok, log := dense.Modify(id, price, quantity);
    }
  }

  method ReferenceAnswer(reference: PriceTimeOrderBook, r: Request) returns (ok: bool, log: seq<Event>)
    requires reference.Valid()
    modifies reference
    ensures reference.Valid()
    ensures Result(ok, reference.Model(), log) == ReferenceStep(old(reference.Model()), reference.capacity, r)
  {
    match r {
      case Submit(o) => ok, log := reference.Submit(o);
      case Cancel(id) => ok, log := reference.Cancel(id);
      case Modify(id, price, quantity) => ok, log := reference.Modify(id, price, quantity);
    }
  }

  /** The repository's differential test as a theorem: on every history it reports agreement. */
  method Compare(dense: DensePriceOrderBook, reference: PriceTimeOrderBook, rs: seq<Request>) returns (same: bool)
    requires dense.Valid() && reference.Valid() && dense.view.book == EMPTY == reference.Model()
    requires reference.capacity == dense.nodes.Length
    requires forall p :: p in dense.grid ==> p > 0
    requires forall i :: 0 <= i < |rs| ==> GridPriced(dense.grid, rs[i])
    modifies dense, dense.nodes, dense.bids, dense.asks, dense.bidBits, dense.askBits, dense.index, dense.index.entries
    modifies reference
    ensures same
  {
    hide DensePriceOrderBook.Valid, WF, Uncrossed, DenseStep, ReferenceStep;
    EmptySane(dense.nodes.Length);
    same := true;
    for i := 0 to |rs|
      invariant dense.Valid() && reference.Valid() && dense.view.book == reference.Model()
      invariant Sane(dense.view.book, dense.nodes.Length) && same
    {
      StepAgrees(dense.view.book, dense.nodes.Length, dense.grid, rs[i]);
      StepKeeps(dense.view.book, dense.nodes.Length, rs[i]);
      var ok, log := DenseAnswer(dense, rs[i]);
      var ok', log' := ReferenceAnswer(reference, rs[i]);
      var bid := dense.BestBid();
      var ask := dense.BestAsk();
      var n := dense.ActiveOrders();
      var bid' := reference.BestBid();
      var ask' := reference.BestAsk();
      same := same && ok == ok' && log == log' && bid == bid' && ask == ask' && n == reference.active;
    }
  }
}
