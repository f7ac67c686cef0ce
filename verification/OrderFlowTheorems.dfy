/** What every run of the pipeline keeps, what it ends with, and why it does not get stuck. */
module OrderFlowTheorems {
  import opened OrderFlow

  // ---------------------------------------------------------------- the invariant is kept

  lemma StepOnePlace(s: State, a: Action, o: Id)
    requires Enabled(s, a) && OnePlace(s, o)
    ensures OnePlace(Step(s, a), o)
  {
    hide Times;
    match a
    case Push(p) => TimesAppend(s.queue, Id(p, s.next[p]), o);
    case PushFails(p) =>
    case Pop(c) =>
      TimesHead(s.queue, o);
      Moves(s.consumers, c, Popped(s.queue[0]), o);
    case PopFails(c) => Moves(s.consumers, c, AtCheck, o);
    case Check(c) => Moves(s.consumers, c, if s.processed >= Total(s) then Left else AtPop, o);
    case BookIt(c) =>
      TimesAppend(s.booked, s.consumers[c].order, o);
      Moves(s.consumers, c, Booked(s.consumers[c].order), o);
    case LogIt(c) =>
      TimesAppend(s.logged, s.consumers[c].order, o);
      Moves(s.consumers, c, Logged(s.consumers[c].order), o);
    case Count(c) =>
      TimesAppend(s.counted, s.consumers[c].order, o);
      Moves(s.consumers, c, AtPop, o);
  }

  lemma Moves(consumers: seq<Consumer>, c: nat, at: Consumer, o: Id)
    requires c < |consumers|
    ensures forall k | 1 <= k <= 3 ::
              Holders(consumers[c := at], k, o) + (if Mine(consumers[c], k, o) then 1 else 0)
              == Holders(consumers, k, o) + (if Mine(at, k, o) then 1 else 0)
  {
    HoldersMove(consumers, c, at, 1, o);
    HoldersMove(consumers, c, at, 2, o);
    HoldersMove(consumers, c, at, 3, o);
  }

  lemma StepConserves(s: State, a: Action)
    requires Enabled(s, a) && Conserved(s)
    ensures Conserved(Step(s, a))
  {
    hide AllOrders, Unpushed, Busy;
    match a
    case Push(p) => UnpushedNext(s.next, s.perProducer, p);
    case PushFails(p) =>
    case Pop(c) => BusyMove(s.consumers, c, Popped(s.queue[0]));
    case PopFails(c) => BusyMove(s.consumers, c, AtCheck);
    case Check(c) => BusyMove(s.consumers, c, if s.processed >= Total(s) then Left else AtPop);
    case BookIt(c) => BusyMove(s.consumers, c, Booked(s.consumers[c].order));
    case LogIt(c) => BusyMove(s.consumers, c, Logged(s.consumers[c].order));
    case Count(c) => BusyMove(s.consumers, c, AtPop);
  }

  lemma StepInv(s: State, a: Action)
    requires Enabled(s, a) && Inv(s)
    ensures Inv(Step(s, a))
  {
    hide AllOrders;
    hide Times;
    hide OnePlace;
    StepConserves(s, a);
    forall o ensures OnePlace(Step(s, a), o) { StepOnePlace(s, a, o); }
    if a.BookIt? {
      assert (s.booked + [s.consumers[a.c].order])[..|s.booked|] == s.booked;
    }
    if a.Count? {
      var o := s.consumers[a.c].order;
      NobodyBusy(s.consumers, 1, o);
    }
  }

  lemma {:induction false} InitInv(producers: nat, consumers: nat, perProducer: nat, cap: nat)
    ensures Inv(Init(producers, consumers, perProducer, cap))
  {
    var s := Init(producers, consumers, perProducer, cap);
    AllUnpushed(producers, perProducer);
    forall o ensures OnePlace(s, o) {
      NobodyBusy(s.consumers, 1, o);
      NobodyBusy(s.consumers, 2, o);
      NobodyBusy(s.consumers, 3, o);
    }
    NobodyBusy(s.consumers, 1, Id(0, 0));
  }

  lemma {:induction false} AllUnpushed(producers: nat, n: nat)
    ensures Unpushed(seq(producers, _ => 0), n) == AllOrders(producers, n)
  {
    if producers > 0 {
      AllUnpushed(producers - 1, n);
      assert seq(producers, _ => 0)[..producers - 1] == seq(producers - 1, _ => 0);
      OneMore(producers - 1, n);
    }
  }

  lemma OneMore(k: nat, n: nat)
    ensures (k + 1) * n == k * n + n
  {
  }

  /** Every state of every run keeps the invariant, and the number of orders and of threads. */
  lemma {:induction false} RunInv(s: State, run: seq<Action>)
    requires Inv(s) && Legal(s, run)
    ensures Inv(After(s, run)) && Total(After(s, run)) == Total(s) && |After(s, run).next| == |s.next|
    ensures After(s, run).perProducer == s.perProducer && |After(s, run).consumers| == |s.consumers| && After(s, run).cap == s.cap
    decreases |run|
  {
    hide Inv;
    hide AllOrders;
    if run != [] {
      StepInv(s, run[0]);
      RunInv(Step(s, run[0]), run[1..]);
    }
  }

  // ---------------------------------------------------------------- the final book

  lemma EnterCommutes(book: Book, x: Id, y: Id)
    ensures Enter(Enter(book, x), y) == Enter(Enter(book, y), x)
  {
  }

  /** It does not matter when an order is entered. */
  lemma {:induction false} EnteredLast(before: seq<Id>, x: Id, after: seq<Id>)
    ensures BookOf(before + [x] + after) == Enter(BookOf(before + after), x)
    decreases |after|
  {
    hide Enter, BookOf;
    if after == [] {
      assert before + [x] + after == before + [x] && before + after == before;
      BookAppend(before, x);
    } else {
      var front, last := after[..|after| - 1], after[|after| - 1];
      EnteredLast(before, x, front);
      assert before + [x] + after == (before + [x] + front) + [last];
      assert before + after == (before + front) + [last];
      BookAppend(before + [x] + front, last);
      BookAppend(before + front, last);
      EnterCommutes(BookOf(before + front), x, last);
    }
  }

  lemma BookAppend(orders: seq<Id>, x: Id)
    ensures BookOf(orders + [x]) == Enter(BookOf(orders), x)
  {
    assert (orders + [x])[..|orders|] == orders;
  }

  lemma Without(a: seq<Id>, k: nat)
    requires k < |a|
    ensures a == a[..k] + [a[k]] + a[k + 1..]
    ensures multiset(a[..k] + a[k + 1..]) == multiset(a) - multiset{a[k]}
  {
    assert a == a[..k] + [a[k]] + a[k + 1..];
  }

  /** Lists of the same orders, each equally often, make the same book: the interleaving does not matter. */
  lemma {:induction false} SameBook(a: seq<Id>, b: seq<Id>)
    requires multiset(a) == multiset(b)
    ensures BookOf(a) == BookOf(b)
    decreases |b|
  {
    assert |a| == |multiset(a)| == |multiset(b)| == |b|;
    if b != [] {
      var front, x := b[..|b| - 1], b[|b| - 1];
      assert b == front + [x];
      assert x in multiset(a);
      var k :| 0 <= k < |a| && a[k] == x;
      Without(a, k);
      Without(b, |b| - 1);
      assert b[..|b| - 1] + b[|b|..] == front;
      assert multiset(a[..k] + a[k + 1..]) == multiset(front);
      EnteredLast(a[..k], x, a[k + 1..]);
      SameBook(a[..k] + a[k + 1..], front);
    }
  }

  lemma EmptyTimes(o: Id)
    ensures Times([], o) == 0
  {
  }

  lemma TimesConcat(a: seq<Id>, b: seq<Id>, o: Id)
    ensures Times(a + b, o) == Times(a, o) + Times(b, o)
  {
  }

  /** All orders of one producer, and of all producers. */
  function OrdersOf(p: nat, n: nat): seq<Id> {
    if n == 0 then [] else OrdersOf(p, n - 1) + [Id(p, n - 1)]
  }

  function Catalogue(producers: nat, n: nat): seq<Id> {
    if producers == 0 then [] else Catalogue(producers - 1, n) + OrdersOf(producers - 1, n)
  }

  lemma {:induction false} OrdersOfOnce(p: nat, n: nat, o: Id)
    ensures Times(OrdersOf(p, n), o) == if o.producer == p && o.index < n then 1 else 0
  {
    if n > 0 {
      OrdersOfOnce(p, n - 1, o);
      TimesAppend(OrdersOf(p, n - 1), Id(p, n - 1), o);
    }
  }

  lemma {:induction false} CatalogueOnce(producers: nat, n: nat, o: Id)
    ensures Times(Catalogue(producers, n), o) == if o.producer < producers && o.index < n then 1 else 0
  {
    hide Times;
    if producers == 0 {
      EmptyTimes(o);
    } else {
      CatalogueOnce(producers - 1, n, o);
      OrdersOfOnce(producers - 1, n, o);
      TimesConcat(Catalogue(producers - 1, n), OrdersOf(producers - 1, n), o);
    }
  }

  /** Everything has been pushed, popped, booked, logged and counted. */
  ghost predicate AllDone(s: State) {
    && (forall p | 0 <= p < |s.next| :: s.next[p] == s.perProducer)
    && s.queue == [] && (forall c | 0 <= c < |s.consumers| :: s.consumers[c].Stage() == 0)
    && (forall o: Id :: var n := if o.producer < |s.next| && o.index < s.perProducer then 1 else 0;
                        Times(s.booked, o) == Times(s.logged, o) == Times(s.counted, o) == n)
  }

  /** The counter reaches the total exactly when everything is done. */
  lemma CountedMeansDone(s: State)
    requires Inv(s)
    ensures s.processed == Total(s) <==> AllDone(s)
  {
    hide Times;
    hide AllOrders;
    UnpushedZero(s.next, s.perProducer);
    NobodyBusy(s.consumers, 1, Id(0, 0));
    if s.processed == Total(s) {
      forall o: Id ensures var n := if o.producer < |s.next| && o.index < s.perProducer then 1 else 0;
                           Times(s.booked, o) == Times(s.logged, o) == Times(s.counted, o) == n
      {
        assert OnePlace(s, o);
        NobodyBusy(s.consumers, 1, o);
        NobodyBusy(s.consumers, 2, o);
        NobodyBusy(s.consumers, 3, o);
        EmptyTimes(o);
      }
    }
  }

  /** A consumer leaves its loop only when every order has been pushed, popped, booked, logged and counted; the book
      is then the one all orders make, whatever the interleaving, and the latency store has one record per order. */
  lemma LeavingMeansDone(s: State, c: nat)
    requires Inv(s) && c < |s.consumers| && s.consumers[c].Left?
    ensures AllDone(s) && s.book == BookOf(Catalogue(|s.next|, s.perProducer))
    ensures s.store == OrderNumbers(s.logged) && multiset(s.logged) == multiset(Catalogue(|s.next|, s.perProducer))
    ensures |s.store| == |Catalogue(|s.next|, s.perProducer)|
  {
    CountedMeansDone(s);
    var all := Catalogue(|s.next|, s.perProducer);
    forall o: Id ensures multiset(s.booked)[o] == multiset(all)[o] == multiset(s.logged)[o] {
      CatalogueOnce(|s.next|, s.perProducer, o);
      assert Times(s.booked, o) == Times(s.logged, o) == Times(all, o);
    }
    assert multiset(s.booked) == multiset(all);
    assert multiset(s.logged) == multiset(all);
    SameBook(s.booked, all);
    assert |s.logged| == |multiset(s.logged)| == |multiset(all)| == |all|;
  }

  /** What a book of orders says: per symbol and side, the sum of the quantities. */
  function Quantity(orders: seq<Id>, symbol: string, isBuy: bool): nat {
    if orders == [] then 0
    else
      var last := |orders| - 1;
      Quantity(orders[..last], symbol, isBuy)
      + if orders[last].Symbol() == symbol && orders[last].IsBuy() == isBuy then orders[last].Quantity() else 0
  }

  lemma EnterSums(book: Book, o: Id, symbol: string)
    ensures symbol in Enter(book, o) <==> symbol in book || o.Symbol() == symbol
    ensures symbol in Enter(book, o) ==>
              var was, q := if symbol in book then book[symbol] else Totals(0, 0), if o.Symbol() == symbol then o.Quantity() else 0;
              Enter(book, o)[symbol] == if o.IsBuy() then Totals(was.bought + q, was.sold) else Totals(was.bought, was.sold + q)
  {
  }

  /** The book has the symbols of the orders entered. */
  lemma {:induction false} BookSymbols(orders: seq<Id>, symbol: string)
    ensures symbol in BookOf(orders) <==> exists o :: o in orders && o.Symbol() == symbol
  {
    if orders != [] {
      var front, last := orders[..|orders| - 1], orders[|orders| - 1];
      BookSymbols(front, symbol);
      EnterSums(BookOf(front), last, symbol);
      hide Enter, Id.Symbol;
      assert orders == front + [last];
    }
  }

  /** Per symbol and side the book has the sum of the quantities entered. */
  lemma {:induction false} BookSums(orders: seq<Id>, symbol: string)
    ensures symbol in BookOf(orders) ==>
              BookOf(orders)[symbol] == Totals(Quantity(orders, symbol, true), Quantity(orders, symbol, false))
    ensures symbol !in BookOf(orders) ==> Quantity(orders, symbol, true) == 0 == Quantity(orders, symbol, false)
  {
    if orders != [] {
      var front, last := orders[..|orders| - 1], orders[|orders| - 1];
      BookSums(front, symbol);
      EnterSums(BookOf(front), last, symbol);
      hide Enter, Id.Symbol, Id.Quantity, Id.IsBuy;
    }
  }

  // ---------------------------------------------------------------- progress

  /** The actions that move an order on: into the queue, to a consumer, and through its three stages. */
  predicate MovesOrder(a: Action) {
    a.Push? || a.Pop? || a.BookIt? || a.LogIt? || a.Count?
  }

  function MovesIn(run: seq<Action>): nat {
    if run == [] then 0 else (if MovesOrder(run[0]) then 1 else 0) + MovesIn(run[1..])
  }

  /** How many moves the order in a consumer's hands still has to make. */
  function MovesLeft(c: Consumer): nat {
    match c
    case Popped(_) => 3
    case Booked(_) => 2
    case Logged(_) => 1
    case _ => 0
  }

  function MovesHeld(consumers: seq<Consumer>): nat {
    if consumers == [] then 0
    else
      var last := |consumers| - 1;
      MovesHeld(consumers[..last]) + MovesLeft(consumers[last])
  }

  /** How many moves all orders together still have to make: five each. */
  function OrderWork(s: State): nat {
    5 * Unpushed(s.next, s.perProducer) + 4 * |s.queue| + MovesHeld(s.consumers)
  }

  lemma {:induction false} MovesHeldMove(consumers: seq<Consumer>, c: nat, at: Consumer)
    requires c < |consumers|
    ensures MovesHeld(consumers[c := at]) + MovesLeft(consumers[c]) == MovesHeld(consumers) + MovesLeft(at)
  {
    var last := |consumers| - 1;
    if c < last {
      MovesHeldMove(consumers[..last], c, at);
      assert consumers[c := at][..last] == consumers[..last][c := at];
    } else {
      assert consumers[c := at][..last] == consumers[..last];
    }
  }

  /** An action that moves an order lowers the work by exactly one, and no other action changes it. */
  lemma StepWork(s: State, a: Action)
    requires Enabled(s, a)
    ensures OrderWork(Step(s, a)) + (if MovesOrder(a) then 1 else 0) == OrderWork(s)
  {
    hide Unpushed, MovesHeld, AllOrders;
    match a
    case Push(p) => UnpushedNext(s.next, s.perProducer, p);
    case PushFails(p) =>
    case Pop(c) => MovesHeldMove(s.consumers, c, Popped(s.queue[0]));
    case PopFails(c) => MovesHeldMove(s.consumers, c, AtCheck);
    case Check(c) => MovesHeldMove(s.consumers, c, if s.processed >= Total(s) then Left else AtPop);
    case BookIt(c) => MovesHeldMove(s.consumers, c, Booked(s.consumers[c].order));
    case LogIt(c) => MovesHeldMove(s.consumers, c, Logged(s.consumers[c].order));
    case Count(c) => MovesHeldMove(s.consumers, c, AtPop);
  }

  /** In every run the moves made and the moves left add up to those left at the start. */
  lemma {:induction false} RunWork(s: State, run: seq<Action>)
    requires Legal(s, run)
    ensures MovesIn(run) + OrderWork(After(s, run)) == OrderWork(s)
    decreases |run|
  {
    hide OrderWork, Step, Enabled;
    if run != [] {
      StepWork(s, run[0]);
      RunWork(Step(s, run[0]), run[1..]);
    }
  }

  lemma {:induction false} MovesHeldZero(consumers: seq<Consumer>)
    ensures MovesHeld(consumers) == 0 <==> Busy(consumers) == 0
  {
    if consumers != [] { MovesHeldZero(consumers[..|consumers| - 1]); }
  }

  /** No move is left exactly when every order is counted. */
  lemma WorkDone(s: State)
    requires Inv(s)
    ensures OrderWork(s) == 0 <==> s.processed == Total(s)
  {
    hide Unpushed, MovesHeld, Busy, AllOrders, OnePlace;
    MovesHeldZero(s.consumers);
  }

  /** A run from the start makes at most five moves an order, and exactly that many when all orders are counted:
      failed pushes and pops and checks are all that a longer run can add. */
  lemma MovesBounded(producers: nat, consumers: nat, perProducer: nat, cap: nat, run: seq<Action>)
    requires Legal(Init(producers, consumers, perProducer, cap), run)
    ensures MovesIn(run) <= 5 * (producers * perProducer)
    ensures MovesIn(run) == 5 * (producers * perProducer) <==> After(Init(producers, consumers, perProducer, cap), run).processed == producers * perProducer
  {
    var start := Init(producers, consumers, perProducer, cap);
    InitInv(producers, consumers, perProducer, cap);
    AllUnpushed(producers, perProducer);
    NobodyBusy(start.consumers, 1, Id(0, 0));
    MovesHeldZero(start.consumers);
    RunInv(start, run);
    RunWork(start, run);
    WorkDone(After(start, run));
  }

  /** While orders remain to be counted and there is a consumer, an action that moves an order is enabled, at once or
      after one consumer's check. */
  lemma SomethingToDo(s: State) returns (a: Action)
    requires Inv(s) && s.processed < Total(s) && s.consumers != [] && s.cap > 0
    ensures Enabled(s, a) && (MovesOrder(a) || (a.Check? && Enabled(Step(s, a), Pop(a.c))))
  {
    NobodyBusy(s.consumers, 1, Id(0, 0));
    UnpushedZero(s.next, s.perProducer);
    if c :| 0 <= c < |s.consumers| && s.consumers[c].Stage() > 0 {
      a := if s.consumers[c].Popped? then BookIt(c) else if s.consumers[c].Booked? then LogIt(c) else Count(c);
    } else if s.queue != [] {
      a := if s.consumers[0].AtPop? then Pop(0) else Check(0);
    } else {
      var p :| 0 <= p < |s.next| && s.next[p] != s.perProducer;
      a := Push(p);
    }
  }

  ghost predicate AllLeft(s: State) {
    forall c | 0 <= c < |s.consumers| :: s.consumers[c].Left?
  }

  /** How many steps the consumers still have to take once all orders are counted. */
  function ToLeave(consumers: seq<Consumer>): nat {
    if consumers == [] then 0
    else
      var last := |consumers| - 1;
      ToLeave(consumers[..last]) + if consumers[last].Left? then 0 else if consumers[last].AtCheck? then 1 else 2
  }

  lemma {:induction false} ToLeaveMove(consumers: seq<Consumer>, c: nat, at: Consumer)
    requires c < |consumers| && ((consumers[c].AtPop? && at.AtCheck?) || (consumers[c].AtCheck? && at.Left?))
    ensures ToLeave(consumers[c := at]) < ToLeave(consumers)
  {
    var last := |consumers| - 1;
    if c < last {
      ToLeaveMove(consumers[..last], c, at);
      assert consumers[c := at][..last] == consumers[..last][c := at];
    } else {
      assert consumers[c := at][..last] == consumers[..last];
    }
  }

  /** Once all orders are counted, every action that is still enabled brings a consumer closer to leaving. */
  lemma WindingDown(s: State, a: Action)
    requires Inv(s) && s.processed == Total(s) && Enabled(s, a)
    ensures a.PopFails? || a.Check?
    ensures ToLeave(Step(s, a).consumers) < ToLeave(s.consumers)
  {
    CountedMeansDone(s);
    if a.PopFails? || a.Check? {
      ToLeaveMove(s.consumers, a.c, if a.PopFails? then AtCheck else Left);
    }
  }

  /** From every reachable state some run makes all consumers leave. */
  lemma {:induction false} CanFinish(s: State) returns (run: seq<Action>)
    requires Inv(s) && s.consumers != [] && s.cap > 0
    ensures Legal(s, run) && AllLeft(After(s, run))
    decreases OrderWork(s), if s.processed < Total(s) then 1 else 0, ToLeave(s.consumers)
  {
    var first: seq<Action>;
    if s.processed < Total(s) {
      first := FirstMove(s);
    } else if c :| 0 <= c < |s.consumers| && !s.consumers[c].Left? {
      CountedMeansDone(s);
      var a := if s.consumers[c].AtPop? then PopFails(c) else Check(c);
      WindingDown(s, a);
      first := [a];
      OneAction(s, a);
    } else {
      return [];
    }
    RunInv(s, first);
    RunWork(s, first);
    var rest := CanFinish(After(s, first));
    run := first + rest;
    RunConcat(s, first, rest);
  }

  lemma OneAction(s: State, a: Action)
    requires Enabled(s, a)
    ensures Legal(s, [a]) && After(s, [a]) == Step(s, a) && MovesIn([a]) == if MovesOrder(a) then 1 else 0
  {
    assert [a][1..] == [];
    assert Legal(Step(s, a), []);
  }

  /** One or two actions, one of which moves an order. */
  lemma FirstMove(s: State) returns (run: seq<Action>)
    requires Inv(s) && s.processed < Total(s) && s.consumers != [] && s.cap > 0
    ensures Legal(s, run) && MovesIn(run) == 1
  {
    var a := SomethingToDo(s);
    OneAction(s, a);
    run := [a];
    if !MovesOrder(a) {
      OneAction(Step(s, a), Pop(a.c));
      run := [a, Pop(a.c)];
      assert run[1..] == [Pop(a.c)];
    }
  }

  lemma {:induction false} RunConcat(s: State, a: seq<Action>, b: seq<Action>)
    requires Legal(s, a) && Legal(After(s, a), b)
    ensures Legal(s, a + b) && After(s, a + b) == After(After(s, a), b)
    decreases |a|
  {
    if a == [] {
      assert a + b == b;
    } else {
      assert (a + b)[1..] == a[1..] + b;
      RunConcat(Step(s, a[0]), a[1..], b);
    }
  }

  /** In every run from the start, at every moment: not yet pushed + queued + held by consumers + counted = total; and
      as soon as one consumer has left, the book and the store are final and those of all orders. */
  lemma EveryRun(producers: nat, consumers: nat, perProducer: nat, cap: nat, run: seq<Action>)
    requires Legal(Init(producers, consumers, perProducer, cap), run)
    ensures var s := After(Init(producers, consumers, perProducer, cap), run);
            && Unpushed(s.next, perProducer) + |s.queue| + Busy(s.consumers) + s.processed == producers * perProducer
            && ((exists c :: 0 <= c < |s.consumers| && s.consumers[c].Left?) ==>
                  && AllDone(s)
                  && s.book == BookOf(Catalogue(producers, perProducer))
                  && s.store == OrderNumbers(s.logged) && multiset(s.logged) == multiset(Catalogue(producers, perProducer)))
  {
    hide Inv;
    hide AllDone;
    var start := Init(producers, consumers, perProducer, cap);
    InitInv(producers, consumers, perProducer, cap);
    RunInv(start, run);
    var s := After(start, run);
    Counts(s);
    if c :| 0 <= c < |s.consumers| && s.consumers[c].Left? {
      LeavingMeansDone(s, c);
    }
  }

  lemma Counts(s: State)
    requires Inv(s)
    ensures Unpushed(s.next, s.perProducer) + |s.queue| + Busy(s.consumers) + s.processed == Total(s)
  {
  }

  /** The order numbers in the store tell all orders apart exactly when no producer has more than 10000 orders, or
      there is only one producer. */
  lemma OrderNumbersUniqueIff(producers: nat, perProducer: nat)
    ensures (forall a: Id, b: Id | a.producer < producers && b.producer < producers && a.index < perProducer && b.index < perProducer
                                   && a.OrderNumber() == b.OrderNumber() :: a == b)
       <==> perProducer <= 10000 || producers <= 1
  {
    assert Id(0, 10000).OrderNumber() == Id(1, 0).OrderNumber();
  }
}
