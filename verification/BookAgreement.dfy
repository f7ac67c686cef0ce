/** The two limit order books given the same operations. */
module BookAgreement {
  import opened Wrappers
  import opened PriceLevels
  import opened LimitOrderBooks

  /** The answers to one round of queries. */
  datatype Answers = Answers(order: Option<Order>, prices: seq<real>, level: Option<Book>, bid: Option<(real, Book)>,
                             ask: Option<(real, Book)>, count: nat)

  /** What the answers must be for a book that holds the orders `b`. */
  ghost predicate AnswersOf(b: Book, id: string, price: real, a: Answers) {
    && a.order == (if id in b then Some(b[id]) else None)
    && IsPriceList(b, a.prices)
    && a.level == (if OrdersAt(b, price) == map[] then None else Some(OrdersAt(b, price)))
    && IsBestLevel(b, true, a.bid) && IsBestLevel(b, false, a.ask)
    && a.count == |b|
  }

  /** The orders determine every answer, so two books with the same orders cannot be told apart by queries. */
  lemma AnswersAreDetermined(b: Book, id: string, price: real, x: Answers, y: Answers)
    requires AnswersOf(b, id, price, x) && AnswersOf(b, id, price, y)
    ensures x == y
  {
    PriceListUnique(b, x.prices, y.prices);
    BestLevelUnique(b, true, x.bid, y.bid);
    BestLevelUnique(b, false, x.ask, y.ask);
  }

  method AskSimple(book: UnoptimizedOrderBook, id: string, price: real) returns (a: Answers)
    requires book.Valid()
    ensures AnswersOf(book.orderLookup, id, price, a)
  {
    var order := book.GetOrder(id);
    var prices := book.GetAllActivePrices();
    var level := book.GetOrdersAtPrice(price);
    var bid := book.GetBestLevel(true);
    var ask := book.GetBestLevel(false);
    a := Answers(order, prices, level, bid, ask, book.activeOrderCount);
  }

  /** The pooled book answers with pointers; these are the orders behind them. */
  method AskPooled(book: OptimizedOrderBook, id: string, price: real) returns (a: Answers)
    requires book.Valid()
    ensures AnswersOf(book.Contents(), id, price, a)
  {
    var order := book.GetOrder(id);
    var prices := book.GetAllActivePrices();
    var level := book.GetOrdersAtPrice(price);
    var bid := book.GetBestLevel(true);
    var ask := book.GetBestLevel(false);
    SameSize(book.orderLevels, book.orderLookup, book.orderPool.slots, book.orderPool.freeIndices);
    a := Answers(order, prices, Seen(level, book.orderPool.slots), SeenLevel(bid, book.orderPool.slots),
                 SeenLevel(ask, book.orderPool.slots), book.activeOrderCount);
  }

  function Seen(level: Option<map<string, nat>>, slots: seq<Order>): Option<Book> {
    if level.None? then None else Some(Deref(level.value, slots))
  }

  function SeenLevel(best: Option<(real, map<string, nat>)>, slots: seq<Order>): Option<(real, Book)> {
    if best.None? then None else Some((best.value.0, Deref(best.value.1, slots)))
  }

  /** Both books replay the operations from empty until, if ever, the pooled one raises: up to there they hold the
      same orders, and it raises exactly at the first new acceptable order that finds as many active orders as the
      pool has slots. */
  method ReplayBoth(ops: seq<Op>, poolCapacity: nat) returns (simple: UnoptimizedOrderBook, pooled: OptimizedOrderBook, done: nat)
    ensures simple.Valid() && pooled.Valid()
    ensures done <= |ops| && simple.orderLookup == pooled.Contents() == AfterAll(ops[..done])
    ensures forall k | 0 <= k < done :: !Exhausts(AfterAll(ops[..k]), ops[k], poolCapacity)
    ensures done < |ops| ==> Exhausts(AfterAll(ops[..done]), ops[done], poolCapacity)
  {
    hide Shared, WellFormed, Levels, PricesOf, Exhausts, After, Deref;
    simple := new UnoptimizedOrderBook();
    pooled := new OptimizedOrderBook(poolCapacity);
    done := 0;
    while done < |ops|
      invariant done <= |ops| && simple.Valid() && pooled.Valid() && fresh(simple) && fresh(pooled) && fresh(pooled.orderPool)
      invariant pooled.orderPool.capacity == poolCapacity
      invariant simple.orderLookup == pooled.Contents() == AfterAll(ops[..done])
      invariant forall k | 0 <= k < done :: !Exhausts(AfterAll(ops[..k]), ops[k], poolCapacity)
    {
      var raised := ApplyPooled(pooled, ops[done]);
      if raised { return; }
      ApplySimple(simple, ops[done]);
      assert ops[..done + 1][..done] == ops[..done];
      done := done + 1;
    }
  }

  predicate Exhausts(b: Book, op: Op, capacity: nat) {
    op.Add? && Accepts(b, op) && |b| == capacity
  }

  method ApplySimple(book: UnoptimizedOrderBook, op: Op)
    requires book.Valid()
    modifies book
    ensures book.Valid() && book.orderLookup == After(old(book.orderLookup), op)
  {
    match op
    case Add(id, price, quantity, isBuy) => book.AddOrder(id, price, quantity, isBuy);
    case Modify(id, price, quantity) => book.ModifyOrder(id, price, quantity);
    case Delete(id) => book.DeleteOrder(id);
  }

  method ApplyPooled(book: OptimizedOrderBook, op: Op) returns (raised: bool)
    requires book.Valid()
    modifies book, book.orderPool
    ensures book.Valid() && book.orderPool.capacity == old(book.orderPool.capacity)
    ensures raised <==> Exhausts(old(book.Contents()), op, book.orderPool.capacity)
    ensures book.Contents() == if raised then old(book.Contents()) else After(old(book.Contents()), op)
  {
    raised := false;
    match op
    case Add(id, price, quantity, isBuy) => raised := book.AddOrder(id, price, quantity, isBuy);
    case Modify(id, price, quantity) => book.ModifyOrder(id, price, quantity);
    case Delete(id) => book.DeleteOrder(id);
  }
}
