/** The pipeline as it is run: the threads' loops over the shared queue, book, store and counter, one atomic action
    at a turn. */
module OrderProcessing {
  import opened Wrappers
  import opened OrderFlow
  import opened OrderFlowTheorems

  datatype Thread = Producer(p: nat) | Consumer(c: nat)

  /** The action a thread takes at its turn, None when it has left its loop; `fails` makes its push or pop fail. */
  function ActionOf(s: State, t: Thread, fails: bool): (a: Option<Action>)
    ensures a.Some? ==> Enabled(s, a.value)
  {
    match t
    case Producer(p) =>
      if p >= |s.next| || s.next[p] >= s.perProducer then None
      else Some(if !fails && |s.queue| < s.cap then Push(p) else PushFails(p))
    case Consumer(c) =>
      if c >= |s.consumers| then None
      else
        match s.consumers[c]
        case AtPop => Some(if !fails && s.queue != [] then Pop(c) else PopFails(c))
        case AtCheck => Some(Check(c))
        case Popped(_) => Some(BookIt(c))
        case Booked(_) => Some(LogIt(c))
        case Logged(_) => Some(Count(c))
        case Left => None
  }

  function Taken(s: State, t: Thread, fails: bool): State {
    var a := ActionOf(s, t, fails);
    if a.None? then s else Step(s, a.value)
  }

  /** The actions taken along a schedule. */
  function Actions(s: State, schedule: seq<(Thread, bool)>): seq<Action>
    decreases |schedule|
  {
    if schedule == [] then []
    else
      var (t, fails) := schedule[0];
      var rest := Actions(Taken(s, t, fails), schedule[1..]);
      if ActionOf(s, t, fails).None? then rest else [ActionOf(s, t, fails).value] + rest
  }

  lemma {:induction false} ActionsAreLegal(s: State, schedule: seq<(Thread, bool)>)
    ensures Legal(s, Actions(s, schedule))
    decreases |schedule|
  {
    if schedule != [] {
      var (t, fails) := schedule[0];
      ActionsAreLegal(Taken(s, t, fails), schedule[1..]);
      var a := ActionOf(s, t, fails);
      if a.Some? {
        assert Actions(s, schedule)[1..] == Actions(Taken(s, t, fails), schedule[1..]);
      }
    }
  }

  /** Every action that is enabled is some thread's turn. */
  lemma TurnOf(s: State, a: Action) returns (t: Thread, fails: bool)
    requires Enabled(s, a)
    ensures ActionOf(s, t, fails) == Some(a)
  {
    fails := a.PushFails? || a.PopFails?;
    t := if a.Push? || a.PushFails? then Producer(a.p) else Consumer(a.c);
  }

  /** So every legal run comes from a schedule of turns: the loops can do all that the transition system can. */
  lemma {:induction false} ScheduleOf(s: State, run: seq<Action>) returns (schedule: seq<(Thread, bool)>)
    requires Legal(s, run)
    ensures Actions(s, schedule) == run
    decreases |run|
  {
    schedule := [];
    if run != [] {
      var t, fails := TurnOf(s, run[0]);
      var rest := ScheduleOf(Step(s, run[0]), run[1..]);
      schedule := [(t, fails)] + rest;
      assert schedule[1..] == rest;
    }
  }

  /** From every reachable state some schedule of turns makes all consumers leave. */
  lemma SomeScheduleFinishes(s: State) returns (schedule: seq<(Thread, bool)>)
    requires Inv(s) && s.consumers != [] && s.cap > 0
    ensures Legal(s, Actions(s, schedule)) && AllLeft(After(s, Actions(s, schedule)))
  {
    var run := CanFinish(s);
    schedule := ScheduleOf(s, run);
  }

  class OrderPipeline {
    const numProducers: nat
    const ordersPerProducer: nat
    const queueCapacity: nat
    const totalExpectedOrders: nat
    var nextIndex: seq<nat>
    var orderQueue: seq<Id>
    var consumers: seq<OrderFlow.Consumer>
    var orderBook: Book
    var latencyDataStore: seq<nat>
    var ordersProcessed: nat
    ghost var booked: seq<Id>
    ghost var logged: seq<Id>
    ghost var counted: seq<Id>

    ghost function Abs(): State
      reads this
    {
      State(ordersPerProducer, queueCapacity, nextIndex, orderQueue, consumers, orderBook, latencyDataStore, ordersProcessed,
            booked, logged, counted)
    }

    ghost predicate Valid()
      reads this
    {
      Inv(Abs()) && |nextIndex| == numProducers && totalExpectedOrders == Total(Abs())
    }

    constructor (numProducers: nat, numConsumers: nat, ordersPerProducer: nat, queueCapacity: nat)
      ensures Valid() && Abs() == Init(numProducers, numConsumers, ordersPerProducer, queueCapacity)
    {
      this.numProducers, this.ordersPerProducer, this.queueCapacity := numProducers, ordersPerProducer, queueCapacity;
      totalExpectedOrders := numProducers * ordersPerProducer;
      nextIndex, orderQueue, consumers := seq(numProducers, _ => 0), [], seq(numConsumers, _ => AtPop);
      orderBook, latencyDataStore, ordersProcessed := map[], [], 0;
      booked, logged, counted := [], [], [];
      InitInv(numProducers, numConsumers, ordersPerProducer, queueCapacity);
    }

    /** One iteration of the loop around `push`: an order that finds room and does not fail joins the end of the queue. */
    method ProducerTurn(p: nat, fails: bool)
      requires Valid()
      modifies this
      ensures Valid() && Abs() == Taken(old(Abs()), Producer(p), fails)
      ensures old(p < |nextIndex| && nextIndex[p] < ordersPerProducer && |orderQueue| < queueCapacity) && !fails ==>
                && orderQueue == old(orderQueue) + [Id(p, old(nextIndex)[p])]
                && nextIndex == old(nextIndex)[p := old(nextIndex)[p] + 1]
      ensures old(p >= |nextIndex| || nextIndex[p] >= ordersPerProducer || |orderQueue| >= queueCapacity) || fails ==>
                orderQueue == old(orderQueue) && nextIndex == old(nextIndex)
      ensures unchanged(`consumers, `orderBook, `latencyDataStore, `ordersProcessed)
    {
      hide Inv;
      if p >= |nextIndex| || nextIndex[p] >= ordersPerProducer { return; }
      StepInv(Abs(), ActionOf(Abs(), Producer(p), fails).value);
      if fails || |orderQueue| >= queueCapacity { return; }
      orderQueue := orderQueue + [Id(p, nextIndex[p])];
      nextIndex := nextIndex[p := nextIndex[p] + 1];
    }

    /** The next action of the consumer's loop.  A pop that does not fail takes the oldest order of a nonempty queue. */
    method ConsumerTurn(c: nat, fails: bool)
      requires Valid()
      modifies this
      ensures Valid() && Abs() == Taken(old(Abs()), Consumer(c), fails)
      ensures old(c < |consumers| && consumers[c].AtPop?) ==>
                if fails || old(orderQueue) == [] then consumers == old(consumers)[c := AtCheck] && unchanged(`orderQueue)
                else consumers == old(consumers)[c := Popped(old(orderQueue)[0])] && orderQueue == old(orderQueue)[1..]
    {
      hide Inv, Step;
      if c >= |consumers| { return; }
      match consumers[c] {
        case AtPop => TryPop(c, fails);
        case AtCheck => CheckTotal(c);
        case Popped(_) => BookOrder(c);
        case Booked(_) => LogOrder(c);
        case Logged(_) => CountOrder(c);
        case Left =>
      }
    }

    method TryPop(c: nat, fails: bool)
      requires Valid() && c < |consumers| && consumers[c].AtPop?
      modifies this`consumers, this`orderQueue
      ensures Valid() && Abs() == Step(old(Abs()), if fails || old(orderQueue) == [] then PopFails(c) else Pop(c))
      ensures if fails || old(orderQueue) == [] then consumers == old(consumers)[c := AtCheck] && unchanged(`orderQueue)
              else consumers == old(consumers)[c := Popped(old(orderQueue)[0])] && orderQueue == old(orderQueue)[1..]
    {
      hide Inv;
      StepInv(Abs(), if fails || orderQueue == [] then PopFails(c) else Pop(c));
      if fails || orderQueue == [] {
        consumers := consumers[c := AtCheck];
      } else {
        consumers := consumers[c := Popped(orderQueue[0])];
        orderQueue := orderQueue[1..];
      }
    }

    /** After a failed pop the consumer leaves exactly when as many orders are counted as there are in all. */
    method CheckTotal(c: nat)
      requires Valid() && c < |consumers| && consumers[c].AtCheck?
      modifies this`consumers
      ensures Valid() && Abs() == Step(old(Abs()), Check(c))
      ensures consumers == old(consumers)[c := if ordersProcessed >= numProducers * ordersPerProducer then Left else AtPop]
    {
      hide Inv;
      StepInv(Abs(), Check(c));
      consumers := consumers[c := if ordersProcessed >= totalExpectedOrders then Left else AtPop];
    }

    /** The order's quantity is added on its side of its symbol, and nothing else in the book changes. */
    method BookOrder(c: nat)
      requires Valid() && c < |consumers| && consumers[c].Popped?
      modifies this`consumers, this`orderBook, this`booked
      ensures Valid() && Abs() == Step(old(Abs()), BookIt(c))
      ensures var o := old(consumers[c].order);
              var was := if o.Symbol() in old(orderBook) then old(orderBook)[o.Symbol()] else Totals(0, 0);
              && consumers == old(consumers)[c := Booked(o)]
              && orderBook == old(orderBook)[o.Symbol() := if o.IsBuy() then Totals(was.bought + o.Quantity(), was.sold)
                                                           else Totals(was.bought, was.sold + o.Quantity())]
    {
      hide Inv;
      StepInv(Abs(), BookIt(c));
      var order := consumers[c].order;
      var e := if order.Symbol() in orderBook then orderBook[order.Symbol()] else Totals(0, 0);
      if order.IsBuy() {
        e := e.(bought := e.bought + order.Quantity());
      } else {
        e := e.(sold := e.sold + order.Quantity());
      }
      orderBook := orderBook[order.Symbol() := e];
      booked := booked + [order];
      consumers := consumers[c := Booked(order)];
    }

    method LogOrder(c: nat)
      requires Valid() && c < |consumers| && consumers[c].Booked?
      modifies this`consumers, this`latencyDataStore, this`logged
      ensures Valid() && Abs() == Step(old(Abs()), LogIt(c))
      ensures consumers == old(consumers)[c := Logged(old(consumers[c].order))]
      ensures latencyDataStore == old(latencyDataStore) + [10000 * old(consumers[c].order.producer) + old(consumers[c].order.index)]
    {
      hide Inv;
      StepInv(Abs(), LogIt(c));
      var order := consumers[c].order;
      latencyDataStore := latencyDataStore + [order.OrderNumber()];
      logged := logged + [order];
      consumers := consumers[c := Logged(order)];
    }

    method CountOrder(c: nat)
      requires Valid() && c < |consumers| && consumers[c].Logged?
      modifies this`consumers, this`ordersProcessed, this`counted
      ensures Valid() && Abs() == Step(old(Abs()), Count(c))
      ensures consumers == old(consumers)[c := AtPop] && ordersProcessed == old(ordersProcessed) + 1
    {
      hide Inv;
      StepInv(Abs(), Count(c));
      ordersProcessed := ordersProcessed + 1;
      counted := counted + [consumers[c].order];
      consumers := consumers[c := AtPop];
    }

    /** Any schedule of turns is a legal run of the transition system. */
    method Run(schedule: seq<(Thread, bool)>)
      requires Valid()
      modifies this
      ensures Valid() && Legal(old(Abs()), Actions(old(Abs()), schedule))
      ensures Abs() == After(old(Abs()), Actions(old(Abs()), schedule))
      decreases |schedule|
    {
      hide Inv;
      ghost var s := Abs();
      ActionsAreLegal(s, schedule);
      if schedule == [] { return; }
      var (t, fails) := schedule[0];
      match t {
        case Producer(p) => ProducerTurn(p, fails);
        case Consumer(c) => ConsumerTurn(c, fails);
      }
      Run(schedule[1..]);
      if ActionOf(s, t, fails).Some? {
        assert Actions(s, schedule)[1..] == Actions(Taken(s, t, fails), schedule[1..]);
      }
    }
  }
}
