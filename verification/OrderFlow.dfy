/** The producer and consumer pipeline as a transition system over the bounded queue: any number of producers
    each push a fixed number of orders, consumers pop, book, log and count them, and leave once all are counted.

    A push or a pop may fail at any time, as the concurrent queue allows while another operation is in flight. */
module OrderFlow {
  import Fifo = BoundedFifo

  /** Order `index` of a producer.  The order number `10000 * producer + index` repeats across producers. */
  datatype Id = Id(producer: nat, index: nat)
  {
    function OrderNumber(): nat { producer * 10000 + index }

    function Symbol(): string {
      if index % 3 == 0 then "AAPL" else if index % 3 == 1 then "GOOGL" else "MSFT"
    }

    function Quantity(): nat { 10 + index % 10 }

    function IsBuy(): bool { (producer + index) % 2 == 0 }
  }

  /** Bought and sold quantity of a symbol. */
  datatype Totals = Totals(bought: nat, sold: nat)

  type Book = map<string, Totals>

  /** One order entered into the book. */
  function Enter(book: Book, o: Id): Book {
    var e := if o.Symbol() in book then book[o.Symbol()] else Totals(0, 0);
    book[o.Symbol() := if o.IsBuy() then e.(bought := e.bought + o.Quantity()) else e.(sold := e.sold + o.Quantity())]
  }

  function BookOf(orders: seq<Id>): Book {
    if orders == [] then map[] else Enter(BookOf(orders[..|orders| - 1]), orders[|orders| - 1])
  }

  /** Where a consumer is in its loop, and the order it holds. */
  datatype Consumer = AtPop | AtCheck | Popped(order: Id) | Booked(order: Id) | Logged(order: Id) | Left
  {
    /** 1 once it has popped its order, 2 once booked, 3 once logged. */
    function Stage(): nat {
      match this
      case Popped(_) => 1
      case Booked(_) => 2
      case Logged(_) => 3
      case _ => 0
    }
  }

  /** The shared state; `booked`, `logged` and `counted` are the orders that went through each stage. */
  datatype State = State(
    perProducer: nat, cap: nat, next: seq<nat>, queue: seq<Id>, consumers: seq<Consumer>,
    book: Book, store: seq<nat>, processed: nat,
    booked: seq<Id>, logged: seq<Id>, counted: seq<Id>)

  datatype Action = Push(p: nat) | PushFails(p: nat) | Pop(c: nat) | PopFails(c: nat) | Check(c: nat) | BookIt(c: nat) | LogIt(c: nat) | Count(c: nat)

  function Init(producers: nat, consumers: nat, perProducer: nat, cap: nat): State {
    State(perProducer, cap, seq(producers, _ => 0), [], seq(consumers, _ => AtPop), map[], [], 0, [], [], [])
  }

  function AllOrders(producers: nat, perProducer: nat): nat { producers * perProducer }

  function Total(s: State): nat { AllOrders(|s.next|, s.perProducer) }

  predicate Enabled(s: State, a: Action) {
    match a
    case Push(p) => p < |s.next| && s.next[p] < s.perProducer && Fifo.Apply(s.cap, s.queue, Fifo.Enqueue(Id(p, s.next[p]))).Some?
    case PushFails(p) => p < |s.next| && s.next[p] < s.perProducer
    case Pop(c) => c < |s.consumers| && s.consumers[c].AtPop? && s.queue != []
    case PopFails(c) => c < |s.consumers| && s.consumers[c].AtPop?
    case Check(c) => c < |s.consumers| && s.consumers[c].AtCheck?
    case BookIt(c) => c < |s.consumers| && s.consumers[c].Popped?
    case LogIt(c) => c < |s.consumers| && s.consumers[c].Booked?
    case Count(c) => c < |s.consumers| && s.consumers[c].Logged?
  }

  function Move(s: State, c: nat, at: Consumer): State
    requires c < |s.consumers|
  {
    s.(consumers := s.consumers[c := at])
  }

  function Step(s: State, a: Action): State
    requires Enabled(s, a)
  {
    match a
    case Push(p) =>
      s.(next := s.next[p := s.next[p] + 1], queue := Fifo.Apply(s.cap, s.queue, Fifo.Enqueue(Id(p, s.next[p]))).value)
    case PushFails(p) => s
    case Pop(c) => Move(s, c, Popped(s.queue[0])).(queue := Fifo.Apply(s.cap, s.queue, Fifo.Dequeue(s.queue[0])).value)
    case PopFails(c) => Move(s, c, AtCheck)
    case Check(c) => Move(s, c, if s.processed >= Total(s) then Left else AtPop)
    case BookIt(c) =>
      var o := s.consumers[c].order;
      Move(s, c, Booked(o)).(book := Enter(s.book, o), booked := s.booked + [o])
    case LogIt(c) =>
      var o := s.consumers[c].order;
      Move(s, c, Logged(o)).(store := s.store + [o.OrderNumber()], logged := s.logged + [o])
    case Count(c) =>
      Move(s, c, AtPop).(processed := s.processed + 1, counted := s.counted + [s.consumers[c].order])
  }

  /** A run: every action enabled where it is taken. */
  ghost predicate Legal(s: State, run: seq<Action>)
    decreases |run|
  {
    run == [] || (Enabled(s, run[0]) && Legal(Step(s, run[0]), run[1..]))
  }

  ghost function After(s: State, run: seq<Action>): State
    requires Legal(s, run)
    decreases |run|
  {
    if run == [] then s else After(Step(s, run[0]), run[1..])
  }

  // ---------------------------------------------------------------- where the orders are

  /** How many times an order occurs in a list. */
  function Times(orders: seq<Id>, o: Id): nat {
    multiset(orders)[o]
  }

  lemma TimesAppend(orders: seq<Id>, x: Id, o: Id)
    ensures Times(orders + [x], o) == Times(orders, o) + if x == o then 1 else 0
  {
  }

  lemma TimesHead(orders: seq<Id>, o: Id)
    requires orders != []
    ensures Times(orders, o) == Times(orders[1..], o) + if orders[0] == o then 1 else 0
  {
    assert orders == [orders[0]] + orders[1..];
  }

  predicate IsPushed(next: seq<nat>, o: Id) {
    o.producer < |next| && o.index < next[o.producer]
  }

  predicate Mine(c: Consumer, stage: nat, o: Id) {
    c.Stage() > 0 && c.Stage() >= stage && c.order == o
  }

  /** How many consumers hold the order and have reached the stage. */
  function Holders(consumers: seq<Consumer>, stage: nat, o: Id): nat {
    if consumers == [] then 0
    else
      var last := |consumers| - 1;
      Holders(consumers[..last], stage, o) + if Mine(consumers[last], stage, o) then 1 else 0
  }

  function Busy(consumers: seq<Consumer>): nat {
    if consumers == [] then 0
    else
      var last := |consumers| - 1;
      Busy(consumers[..last]) + if consumers[last].Stage() > 0 then 1 else 0
  }

  function Unpushed(next: seq<nat>, n: nat): nat {
    if next == [] then 0
    else
      var last := |next| - 1;
      Unpushed(next[..last], n) + if next[last] <= n then n - next[last] else 0
  }

  lemma {:induction false} UnpushedNext(next: seq<nat>, n: nat, p: nat)
    requires p < |next| && next[p] < n
    ensures Unpushed(next[p := next[p] + 1], n) + 1 == Unpushed(next, n)
  {
    var last := |next| - 1;
    var next' := next[p := next[p] + 1];
    if p < last {
      UnpushedNext(next[..last], n, p);
      assert next'[..last] == next[..last][p := next[p] + 1];
    } else {
      assert next'[..last] == next[..last];
    }
  }

  /** Nothing is left to push exactly when every producer has pushed all its orders. */
  lemma {:induction false} UnpushedZero(next: seq<nat>, n: nat)
    requires forall p | 0 <= p < |next| :: next[p] <= n
    ensures Unpushed(next, n) == 0 <==> forall p | 0 <= p < |next| :: next[p] == n
  {
    if next != [] {
      var last := |next| - 1;
      assert forall p | 0 <= p < last :: next[..last][p] == next[p];
      UnpushedZero(next[..last], n);
    }
  }

  lemma {:induction false} HoldersMove(consumers: seq<Consumer>, c: nat, at: Consumer, stage: nat, o: Id)
    requires c < |consumers|
    ensures Holders(consumers[c := at], stage, o) + (if Mine(consumers[c], stage, o) then 1 else 0)
         == Holders(consumers, stage, o) + (if Mine(at, stage, o) then 1 else 0)
  {
    var last := |consumers| - 1;
    if c < last {
      HoldersMove(consumers[..last], c, at, stage, o);
      assert consumers[c := at][..last] == consumers[..last][c := at];
    } else {
      assert consumers[c := at][..last] == consumers[..last];
    }
  }

  lemma {:induction false} BusyMove(consumers: seq<Consumer>, c: nat, at: Consumer)
    requires c < |consumers|
    ensures Busy(consumers[c := at]) + (if consumers[c].Stage() > 0 then 1 else 0) == Busy(consumers) + (if at.Stage() > 0 then 1 else 0)
  {
    var last := |consumers| - 1;
    if c < last {
      BusyMove(consumers[..last], c, at);
      assert consumers[c := at][..last] == consumers[..last][c := at];
    } else {
      assert consumers[c := at][..last] == consumers[..last];
    }
  }

  lemma {:induction false} NobodyBusy(consumers: seq<Consumer>, stage: nat, o: Id)
    ensures Busy(consumers) == 0 <==> forall c | 0 <= c < |consumers| :: consumers[c].Stage() == 0
    ensures Busy(consumers) == 0 ==> Holders(consumers, stage, o) == 0
  {
    if consumers != [] {
      var last := |consumers| - 1;
      assert forall c | 0 <= c < last :: consumers[..last][c] == consumers[c];
      NobodyBusy(consumers[..last], stage, o);
    }
  }

  function OrderNumbers(orders: seq<Id>): seq<nat> {
    seq(|orders|, i requires 0 <= i < |orders| => orders[i].OrderNumber())
  }

  // ---------------------------------------------------------------- the invariant

  /** Each pushed order is in exactly one place, once: in the queue, in one consumer's hands, or counted.  It has
      been booked once its consumer is past booking, and logged once its consumer is past logging. */
  ghost predicate OnePlace(s: State, o: Id) {
    && Times(s.queue, o) + Holders(s.consumers, 1, o) + Times(s.counted, o) == (if IsPushed(s.next, o) then 1 else 0)
    && Times(s.booked, o) == Holders(s.consumers, 2, o) + Times(s.counted, o)
    && Times(s.logged, o) == Holders(s.consumers, 3, o) + Times(s.counted, o)
  }

  ghost predicate Conserved(s: State) {
    && (forall p | 0 <= p < |s.next| :: s.next[p] <= s.perProducer)
    && Unpushed(s.next, s.perProducer) + |s.queue| + Busy(s.consumers) + s.processed == Total(s)
  }

  ghost predicate Inv(s: State) {
    && Conserved(s) && (forall o :: OnePlace(s, o)) && |s.queue| <= s.cap
    && s.book == BookOf(s.booked) && s.store == OrderNumbers(s.logged)
    && (forall c | 0 <= c < |s.consumers| && s.consumers[c].Left? :: s.processed == Total(s))
  }
}
