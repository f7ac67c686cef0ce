/** The matching engine: one market-data tick adds a buy and a sell order, matches, and may add one more buy. */
module MatchingEngines {
  import opened Wrappers
  import opened Matching
  import opened MemoryPools
  import opened SlotSets
  import opened OrderBooks
  import opened TimePriority

  const DEFAULT_QUANTITY := 20

  /** A view depends only on the quantities of its own orders. */
  lemma {:induction false} ViewFrame(side: seq<Slot>, orders: map<nat, Order>, p: nat, o: Order)
    requires p !in Pointers(side)
    ensures View(side, orders[p := o]) == View(side, orders)
  {
    if side != [] { ViewFrame(side[1..], orders, p, o); }
  }

  lemma {:induction false} ViewSorted(isBuy: bool, side: seq<Slot>, orders: map<nat, Order>, byId: map<int, nat>)
    requires SideOk(isBuy, side, orders, byId)
    ensures Sorted(isBuy, View(side, orders))
  {
    if side != [] {
      ViewSorted(isBuy, side[1..], orders, byId);
      var v := View(side, orders);
      assert v[1..] == View(side[1..], orders);
      ViewBounded(isBuy, side[1..], orders, side[0].price);
      forall i, j | 0 <= i < j < |v| ensures !Better(isBuy, v[j].price, v[i].price) {
        assert v[j] == v[1..][j - 1] && (i > 0 ==> v[i] == v[1..][i - 1]);
      }
    }
  }

  lemma {:induction false} ViewBounded(isBuy: bool, side: seq<Slot>, orders: map<nat, Order>, price: real)
    requires Bounded(isBuy, side, price)
    ensures forall i | 0 <= i < |side| :: !Better(isBuy, View(side, orders)[i].price, price)
  {
    if side != [] {
      ViewBounded(isBuy, side[1..], orders, price);
      assert View(side, orders)[1..] == View(side[1..], orders);
    }
  }

  function Less(orders: map<nat, Order>, p: nat, q: int): map<nat, Order>
    requires p in orders
  {
    orders[p := orders[p].(quantity := orders[p].quantity - q)]
  }

  /** A change of quantity leaves the filing of every order as it was. */
  lemma SideUpdates(isBuy: bool, side: seq<Slot>, orders: map<nat, Order>, byId: map<int, nat>, p: nat, q: int)
    requires SideOk(isBuy, side, orders, byId) && p in orders
    ensures SideOk(isBuy, side, Less(orders, p, q), byId)
    ensures p !in Pointers(side) ==> View(side, Less(orders, p, q)) == View(side, orders)
  {
    PointersFiled(isBuy, side, orders, byId);
    SideFrame(isBuy, side, orders, byId, Less(orders, p, q), byId);
    if p !in Pointers(side) { ViewFrame(side, orders, p, Less(orders, p, q)[p]); }
  }

  /** What is left of a side after its first order gave `q`. */
  function Rest(side: seq<Slot>, orders: map<nat, Order>): seq<Slot>
    requires side != [] && side[0].ptr in orders
  {
    if orders[side[0].ptr].quantity <= 0 then side[1..] else side
  }

  /** Taking `q` off the first order, in place, is `Hit` on the view. */
  lemma ViewHit(isBuy: bool, side: seq<Slot>, orders: map<nat, Order>, byId: map<int, nat>, q: int)
    requires SideOk(isBuy, side, orders, byId) && side != []
    ensures var left := Less(orders, side[0].ptr, q);
            SideOk(isBuy, Rest(side, left), left, byId) && View(Rest(side, left), left) == Hit(View(side, orders), q)
  {
    var p := side[0].ptr;
    var left := Less(orders, p, q);
    SideUpdates(isBuy, side, orders, byId, p, q);
    SideUpdates(isBuy, side[1..], orders, byId, p, q);
  }

  function Views(bids: seq<Slot>, asks: seq<Slot>, orders: map<nat, Order>): Cleared {
    Cleared(View(bids, orders), View(asks, orders), 0)
  }

  /** Both sides after a trade of `q` between their first orders. */
  function Traded(c: Cleared, q: int): Cleared
    requires c.bids != [] && c.asks != []
  {
    Cleared(Hit(c.bids, q), Hit(c.asks, q), 0)
  }

  lemma TradeOk(bids: seq<Slot>, asks: seq<Slot>, orders: map<nat, Order>, byId: map<int, nat>, q: int)
    requires SideOk(true, bids, orders, byId) && SideOk(false, asks, orders, byId) && bids != [] && asks != []
    ensures var buy, sell := bids[0].ptr, asks[0].ptr;
            buy != sell &&
            var left := Less(Less(orders, buy, q), sell, q);
            && SideOk(true, Rest(bids, left), left, byId) && SideOk(false, Rest(asks, left), left, byId)
            && Views(Rest(bids, left), Rest(asks, left), left) == Traded(Views(bids, asks, orders), q)
  {
    var buy, sell := bids[0].ptr, asks[0].ptr;
    PointersFiled(true, bids, orders, byId);
    PointersFiled(false, asks, orders, byId);
    assert sell in Pointers(asks) && sell !in Pointers(bids) && buy in Pointers(bids) && buy !in Pointers(asks);
    var mid := Less(orders, buy, q);
    ViewHit(true, bids, orders, byId, q);
    SideUpdates(true, Rest(bids, mid), mid, byId, sell, q);
    SideUpdates(false, asks, orders, byId, buy, q);
    ViewHit(false, asks, mid, byId, q);
  }

  lemma IndexUpdates(orders: map<nat, Order>, byId: map<int, nat>, outside: multiset<nat>, p: nat, q: int)
    requires p in orders && IndexOk(orders, byId)
    requires forall x | x in orders :: Indexed(orders[x].id, x, byId) || x in outside
    ensures var left := Less(orders, p, q);
            && IndexOk(left, byId) && left.Keys == orders.Keys
            && forall x | x in left :: Indexed(left[x].id, x, byId) || x in outside
  {
  }

  /** The body of the loop: the two best orders trade, and leave the book when nothing is left of them. */
  method Trade(bids: seq<Slot>, asks: seq<Slot>, orders: map<nat, Order>, ghost byId: map<int, nat>, ghost outside: multiset<nat>)
    returns (q: int, bids': seq<Slot>, asks': seq<Slot>, orders': map<nat, Order>)
    requires Consistent(bids, asks, orders, byId, outside) && bids != [] && asks != []
    ensures var c := Views(bids, asks, orders);
            q == Least(c.bids[0].qty, c.asks[0].qty) && Views(bids', asks', orders') == Traded(c, q)
    ensures TradeFrame(bids, asks, orders, bids', asks', orders', q)
    ensures Consistent(bids', asks', orders', byId, outside) && orders'.Keys == orders.Keys
  {
    var buy, sell := bids[0].ptr, asks[0].ptr;
    q := Least(orders[buy].quantity, orders[sell].quantity);
    TradeOk(bids, asks, orders, byId, q);
    IndexUpdates(orders, byId, outside, buy, q);
    IndexUpdates(Less(orders, buy, q), byId, outside, sell, q);
    orders' := orders[buy := orders[buy].(quantity := orders[buy].quantity - q)];
    orders' := orders'[sell := orders'[sell].(quantity := orders'[sell].quantity - q)];
    bids', asks' := bids, asks;
    if orders'[buy].quantity <= 0 { bids' := bids[1..]; }
    if orders'[sell].quantity <= 0 { asks' := asks[1..]; }
    ghost var left := Less(Less(orders, buy, q), sell, q);
    assert orders' == left && bids' == Rest(bids, left) && asks' == Rest(asks, left);
  }

  /** What a trade leaves alone: all orders but the two that trade, and all of those two but the quantity. */
  ghost predicate TradeFrame(bids: seq<Slot>, asks: seq<Slot>, orders: map<nat, Order>,
                             bids': seq<Slot>, asks': seq<Slot>, orders': map<nat, Order>, q: int)
    requires bids != [] && asks != []
  {
    var buy, sell := bids[0].ptr, asks[0].ptr;
    && buy in orders && sell in orders && buy != sell
    && orders' == Less(Less(orders, buy, q), sell, q)
    && bids' == Rest(bids, orders') && asks' == Rest(asks, orders')
  }

  /** Resting orders have something left, and all others have nothing left. */
  ghost predicate Settled(bids: seq<Slot>, asks: seq<Slot>, orders: map<nat, Order>) {
    && Positive(View(bids, orders)) && Positive(View(asks, orders))
    && forall p | p in orders :: p in Pointers(bids) || p in Pointers(asks) || orders[p].quantity == 0
  }

  lemma RestPointers(side: seq<Slot>, orders: map<nat, Order>)
    requires side != [] && side[0].ptr in orders
    ensures Pointers(side) <= Pointers(Rest(side, orders)) + {side[0].ptr}
    ensures orders[side[0].ptr].quantity > 0 ==> side[0].ptr in Pointers(Rest(side, orders))
  {
  }

  lemma TradeSettles(bids: seq<Slot>, asks: seq<Slot>, orders: map<nat, Order>,
                     bids': seq<Slot>, asks': seq<Slot>, orders': map<nat, Order>, q: int)
    requires bids != [] && asks != [] && TradeFrame(bids, asks, orders, bids', asks', orders', q)
    requires q == Least(View(bids, orders)[0].qty, View(asks, orders)[0].qty)
    requires Views(bids', asks', orders') == Traded(Views(bids, asks, orders), q)
    requires Settled(bids, asks, orders)
    ensures Settled(bids', asks', orders')
  {
    HitThenConsume(View(bids, orders), q, 0);
    HitThenConsume(View(asks, orders), q, 0);
    RestPointers(bids, orders');
    RestPointers(asks, orders');
  }

  // ---------------------------------------------------------------- one tick, as values

  /** The market: both sides, and the free blocks in the order in which they will be used. */
  datatype Market = Market(bids: seq<Resting>, asks: seq<Resting>, free: seq<nat>)

  datatype Tick = Tick(symbol: string, bidPrice: real, askPrice: real)

  /** A new order goes behind the orders that are at least as good. */
  function Join(isBuy: bool, side: seq<Resting>, e: Resting): seq<Resting> {
    Placed(PriceOf, isBuy, side, e)
  }

  /** An order is accepted while a block is free. */
  function Accept(m: Market, isBuy: bool, price: real, quantity: int): Market {
    if m.free == [] then m
    else
      var e := Resting(price, m.free[0], quantity);
      if isBuy then Market(Join(true, m.bids, e), m.asks, m.free[1..]) else Market(m.bids, Join(false, m.asks, e), m.free[1..])
  }

  function Quoted(m: Market, t: Tick): Market {
    Accept(Accept(m, true, t.bidPrice, DEFAULT_QUANTITY), false, t.askPrice, DEFAULT_QUANTITY)
  }

  function Matched(m: Market): Market {
    var c := Match(m.bids, m.asks);
    Market(c.bids, c.asks, m.free)
  }

  /** What a matching round executes. */
  function Volume(m: Market): int {
    Match(m.bids, m.asks).executed
  }

  /** One more unit at the best bid, when both sides rest and that bid is below 100. */
  function Topped(m: Market): Market {
    if m.bids != [] && m.asks != [] && m.bids[0].price < 100.0 then Accept(m, true, m.bids[0].price, 1) else m
  }

  function AfterTick(m: Market, t: Tick): Market {
    Topped(Matched(Quoted(m, t)))
  }

  function AfterTicks(m: Market, ticks: seq<Tick>): Market {
    if ticks == [] then m else AfterTick(AfterTicks(m, ticks[..|ticks| - 1]), ticks[|ticks| - 1])
  }

  lemma {:induction false} JoinAdds(isBuy: bool, side: seq<Resting>, e: Resting)
    ensures multiset(Join(isBuy, side, e)) == multiset(side) + multiset{e}
  {
    if side == [] || Better(isBuy, e.price, side[0].price) {
      assert Join(isBuy, side, e) == [e] + side;
    } else {
      JoinAdds(isBuy, side[1..], e);
      assert side == [side[0]] + side[1..];
      assert Join(isBuy, side, e) == [side[0]] + Join(isBuy, side[1..], e);
    }
  }

  /** The book a tick matches is the one before with the quoted bid among the bids and the quoted ask among the asks,
      as far as there are free blocks. */
  lemma QuotedMeans(m: Market, t: Tick)
    ensures var q := Quoted(m, t);
            && multiset(q.bids) == multiset(m.bids) + (if m.free == [] then multiset{} else multiset{Resting(t.bidPrice, m.free[0], 20)})
            && multiset(q.asks) == multiset(m.asks) + (if |m.free| <= 1 then multiset{} else multiset{Resting(t.askPrice, m.free[1], 20)})
            && q.free == if |m.free| <= 2 then [] else m.free[2..]
  {
    if m.free != [] {
      JoinAdds(true, m.bids, Resting(t.bidPrice, m.free[0], 20));
      var m1 := Accept(m, true, t.bidPrice, DEFAULT_QUANTITY);
      if m1.free != [] {
        assert m1.free[0] == m.free[1];
        JoinAdds(false, m1.asks, Resting(t.askPrice, m.free[1], 20));
      }
    }
  }

  /** A quiet market does not trade: with the bid below the ask and an empty book, both quotes rest. */
  lemma FirstQuotesRest(t: Tick, free: seq<nat>)
    requires |free| >= 2 && t.bidPrice < t.askPrice
    ensures Quoted(Market([], [], free), t) == Market([Resting(t.bidPrice, free[0], 20)], [Resting(t.askPrice, free[1], 20)], free[2..])
    ensures Matched(Quoted(Market([], [], free), t)) == Quoted(Market([], [], free), t)
  {
  }

  /** What a tick adds to each side: the quoted quantities while blocks are free, and the extra unit. */
  function Bought(m: Market, t: Tick): int {
    var c := Matched(Quoted(m, t));
    (if m.free == [] then 0 else DEFAULT_QUANTITY)
    + (if c.bids != [] && c.asks != [] && c.bids[0].price < 100.0 && |m.free| > 2 then 1 else 0)
  }

  function Sold(m: Market): int {
    if |m.free| > 1 then DEFAULT_QUANTITY else 0
  }

  function BoughtOver(m: Market, ticks: seq<Tick>): int {
    if ticks == [] then 0
    else
      var before, t := ticks[..|ticks| - 1], ticks[|ticks| - 1];
      BoughtOver(m, before) + Bought(AfterTicks(m, before), t)
  }

  function SoldOver(m: Market, ticks: seq<Tick>): int {
    if ticks == [] then 0
    else
      var before := ticks[..|ticks| - 1];
      SoldOver(m, before) + Sold(AfterTicks(m, before))
  }

  function VolumeOver(m: Market, ticks: seq<Tick>): int {
    if ticks == [] then 0
    else
      var before, t := ticks[..|ticks| - 1], ticks[|ticks| - 1];
      VolumeOver(m, before) + Volume(Quoted(AfterTicks(m, before), t))
  }

  ghost predicate AllPositive(m: Market) {
    Positive(m.bids) && Positive(m.asks)
  }

  lemma {:induction false} JoinTotal(isBuy: bool, side: seq<Resting>, e: Resting)
    requires Positive(side) && e.qty > 0
    ensures Positive(Join(isBuy, side, e)) && Total(Join(isBuy, side, e)) == Total(side) + e.qty
  {
    if side == [] || Better(isBuy, e.price, side[0].price) {
      assert ([e] + side)[1..] == side;
    } else {
      JoinTotal(isBuy, side[1..], e);
      assert Join(isBuy, side, e)[1..] == Join(isBuy, side[1..], e);
    }
  }

  lemma AcceptTotal(m: Market, isBuy: bool, price: real, quantity: int)
    requires AllPositive(m) && quantity > 0
    ensures var m' := Accept(m, isBuy, price, quantity);
            && AllPositive(m') && m'.free == (if m.free == [] then [] else m.free[1..])
            && Total(m'.bids) == Total(m.bids) + (if isBuy && m.free != [] then quantity else 0)
            && Total(m'.asks) == Total(m.asks) + (if !isBuy && m.free != [] then quantity else 0)
  {
    if m.free != [] { JoinTotal(isBuy, if isBuy then m.bids else m.asks, Resting(price, m.free[0], quantity)); }
  }

  /** On each side what a tick accepts is what came to rest plus what was traded, also when the pool runs out on the way. */
  lemma TickConserves(m: Market, t: Tick)
    requires AllPositive(m)
    ensures var m' := AfterTick(m, t);
            && AllPositive(m') && 0 <= Volume(Quoted(m, t))
            && Total(m'.bids) + Volume(Quoted(m, t)) == Total(m.bids) + Bought(m, t)
            && Total(m'.asks) + Volume(Quoted(m, t)) == Total(m.asks) + Sold(m)
  {
    var m1 := Accept(m, true, t.bidPrice, DEFAULT_QUANTITY);
    AcceptTotal(m, true, t.bidPrice, DEFAULT_QUANTITY);
    AcceptTotal(m1, false, t.askPrice, DEFAULT_QUANTITY);
    var m2 := Quoted(m, t);
    MatchConsumes(m2.bids, m2.asks);
    var m3 := Matched(m2);
    if m3.bids != [] { AcceptTotal(m3, true, m3.bids[0].price, 1); }
  }

  /** So it is over every run of ticks. */
  lemma {:induction false} RunConserves(m: Market, ticks: seq<Tick>)
    requires AllPositive(m)
    ensures var m' := AfterTicks(m, ticks);
            && AllPositive(m')
            && Total(m'.bids) + VolumeOver(m, ticks) == Total(m.bids) + BoughtOver(m, ticks)
            && Total(m'.asks) + VolumeOver(m, ticks) == Total(m.asks) + SoldOver(m, ticks)
  {
    if ticks != [] {
      var before := ticks[..|ticks| - 1];
      RunConserves(m, before);
      TickConserves(AfterTicks(m, before), ticks[|ticks| - 1]);
    }
  }

  ghost predicate BothSorted(m: Market) {
    Sorted(true, m.bids) && Sorted(false, m.asks)
  }

  lemma AcceptSorted(m: Market, isBuy: bool, price: real, quantity: int)
    requires BothSorted(m)
    ensures BothSorted(Accept(m, isBuy, price, quantity))
  {
    if m.free != [] { PlacedSorted(isBuy, if isBuy then m.bids else m.asks, Resting(price, m.free[0], quantity)); }
  }

  /** A tick keeps both sides sorted, and what it trades is the clearing volume of the quoted book. */
  lemma TickClears(m: Market, t: Tick)
    requires AllPositive(m) && BothSorted(m)
    ensures BothSorted(AfterTick(m, t)) && BothSorted(Quoted(m, t))
    ensures ClearsAt(Quoted(m, t).bids, Quoted(m, t).asks, Volume(Quoted(m, t)))
  {
    hide Sorted, ClearsAt, Positive;
    var m1, m2 := Accept(m, true, t.bidPrice, DEFAULT_QUANTITY), Quoted(m, t);
    AcceptTotal(m, true, t.bidPrice, DEFAULT_QUANTITY);
    AcceptTotal(m1, false, t.askPrice, DEFAULT_QUANTITY);
    AcceptSorted(m, true, t.bidPrice, DEFAULT_QUANTITY);
    AcceptSorted(m1, false, t.askPrice, DEFAULT_QUANTITY);
    MatchClears(m2.bids, m2.asks);
    MatchConsumes(m2.bids, m2.asks);
    ConsumeSorted(true, m2.bids, Volume(m2));
    ConsumeSorted(false, m2.asks, Volume(m2));
    var m3 := Matched(m2);
    if m3.bids != [] { AcceptSorted(m3, true, m3.bids[0].price, 1); }
  }

  /** Over a run, every tick trades the clearing volume of its own quoted book. */
  lemma {:induction false} RunClears(m: Market, ticks: seq<Tick>)
    requires AllPositive(m) && BothSorted(m)
    ensures BothSorted(AfterTicks(m, ticks))
    ensures forall i | 0 <= i < |ticks| ::
              var q := Quoted(AfterTicks(m, ticks[..i]), ticks[i]); ClearsAt(q.bids, q.asks, Volume(q))
  {
    hide ClearsAt, BothSorted, AfterTick, Quoted;
    if ticks != [] {
      var before := ticks[..|ticks| - 1];
      RunClears(m, before);
      RunConserves(m, before);
      TickClears(AfterTicks(m, before), ticks[|ticks| - 1]);
      forall i | 0 <= i < |ticks|
        ensures var q := Quoted(AfterTicks(m, ticks[..i]), ticks[i]); ClearsAt(q.bids, q.asks, Volume(q))
      {
        if i < |before| { assert before[..i] == ticks[..i] && before[i] == ticks[i]; } else { assert ticks[..i] == before; }
      }
    }
  }

  lemma {:induction false} EmplaceView(isBuy: bool, side: seq<Slot>, orders: map<nat, Order>, e: Slot)
    ensures View(Emplace(isBuy, side, e), orders) == Join(isBuy, View(side, orders), Resting(e.price, e.ptr, QuantityOf(orders, e.ptr)))
  {
    var side' := Emplace(isBuy, side, e);
    if side == [] || Better(isBuy, e.price, side[0].price) {
      assert side'[1..] == side;
    } else {
      EmplaceView(isBuy, side[1..], orders, e);
      assert side'[1..] == Emplace(isBuy, side[1..], e);
      assert View(side, orders)[1..] == View(side[1..], orders);
    }
  }

  // ---------------------------------------------------------------- adding an order

  /** A new order adds its quantity to its side and joins it behind its equals. */
  lemma {:induction false} EnterView(isBuy: bool, side: seq<Slot>, orders: map<nat, Order>, e: Slot)
    requires QuantityOf(orders, e.ptr) > 0
    ensures var side' := Emplace(isBuy, side, e);
            && (Positive(View(side, orders)) ==> Positive(View(side', orders)))
            && Pointers(side') == Pointers(side) + {e.ptr}
  {
    var side' := Emplace(isBuy, side, e);
    if side == [] || Better(isBuy, e.price, side[0].price) {
      assert side'[1..] == side;
    } else {
      EnterView(isBuy, side[1..], orders, e);
      assert side'[1..] == Emplace(isBuy, side[1..], e);
      assert View(side, orders)[1..] == View(side[1..], orders);
    }
  }

  lemma SubmitSettles(bids: seq<Slot>, asks: seq<Slot>, orders: map<nat, Order>, byId: map<int, nat>, p: nat, o: Order, free: seq<nat>)
    requires SideOk(true, bids, orders, byId) && SideOk(false, asks, orders, byId) && p !in orders
    requires Settled(bids, asks, orders) && o.quantity > 0 && free != [] && free[0] == p
    ensures var orders', bids', asks' := orders[p := o], BidsWith(bids, p, o), AsksWith(asks, p, o);
            && Settled(bids', asks', orders')
            && Market(View(bids', orders'), View(asks', orders'), free[1..])
               == Accept(Market(View(bids, orders), View(asks, orders), free), o.isBuy, o.price, o.quantity)
  {
    PointersFiled(true, bids, orders, byId);
    PointersFiled(false, asks, orders, byId);
    ViewFrame(bids, orders, p, o);
    ViewFrame(asks, orders, p, o);
    EnterView(o.isBuy, if o.isBuy then bids else asks, orders[p := o], Slot(o.price, p));
    EmplaceView(o.isBuy, if o.isBuy then bids else asks, orders[p := o], Slot(o.price, p));
  }

  /** The references outside the book are the order manager's, one for each of its orders. */
  ghost predicate HeldBy(managed: map<int, nat>, outside: multiset<nat>, nextId: int) {
    && (forall id | id in managed :: id < nextId && outside[managed[id]] == 1)
    && (forall p | p in outside :: exists id :: id in managed && managed[id] == p)
  }

  lemma HoldsOneMore(managed: map<int, nat>, outside: multiset<nat>, nextId: int, id: int, p: nat)
    requires HeldBy(managed, outside, nextId) && id !in managed && id < nextId && p !in outside
    ensures HeldBy(managed[id := p], outside + multiset{p}, nextId)
  {
    var more := managed[id := p];
    forall x | x in outside + multiset{p} ensures exists k :: k in more && more[k] == x {
      if x == p {
        assert more[id] == p;
      } else {
        var k :| k in managed && managed[k] == x;
        assert k in more && more[k] == x;
      }
    }
  }

  /** An order at the best price joins behind the best order. */
  lemma BestStays(bids: seq<Slot>, asks: seq<Slot>, orders: map<nat, Order>, byId: map<int, nat>, p: nat, o: Order)
    requires SideOk(false, asks, orders, byId) && p !in orders
    requires bids != [] && o.isBuy && o.price == bids[0].price && !Crossed(View(bids, orders), View(asks, orders))
    ensures !Crossed(View(BidsWith(bids, p, o), orders[p := o]), View(asks, orders[p := o]))
  {
    PointersFiled(false, asks, orders, byId);
    ViewFrame(asks, orders, p, o);
    assert BidsWith(bids, p, o)[0] == bids[0];
  }

  /** The book at one moment. */
  datatype Snapshot = Snapshot(bids: seq<Slot>, asks: seq<Slot>, orders: map<nat, Order>, byId: map<int, nat>, free: seq<nat>)

  /** The order has taken the first free block and its id, and has joined its side behind its equals. */
  ghost predicate Entered(s: Snapshot, s': Snapshot, o: Order) {
    && s.free != [] && s'.free == s.free[1..]
    && s'.orders == s.orders[s.free[0] := o] && s'.byId == s.byId[o.id := s.free[0]]
    && (if o.isBuy then HasJoined(KeyOf, true, s.bids, Slot(o.price, s.free[0]), s'.bids) && s'.asks == s.asks
        else HasJoined(KeyOf, false, s.asks, Slot(o.price, s.free[0]), s'.asks) && s'.bids == s.bids)
  }

  /** An order is entered while a block is free; otherwise nothing changes. */
  ghost predicate Offered(s: Snapshot, s': Snapshot, o: Order) {
    if s.free == [] then s' == s else Entered(s, s', o)
  }

  /** A matching round: only quantities change, filled orders leave, price-time priority is kept on both sides, what is
      traded is the clearing volume, and nothing crosses any more. */
  ghost predicate Round(s: Snapshot, s': Snapshot) {
    && OnlyQuantities(s.orders, s'.orders) && s'.byId == s.byId && s'.free == s.free
    && PriorityKept(true, s.bids, s.orders, s'.orders) && PriorityKept(false, s.asks, s.orders, s'.orders)
    && (exists n: int :: ClearsAt(View(s.bids, s.orders), View(s.asks, s.orders), n)
                         && View(s'.bids, s'.orders) == Consume(View(s.bids, s.orders), n)
                         && View(s'.asks, s'.orders) == Consume(View(s.asks, s.orders), n))
    && !Crossed(View(s'.bids, s'.orders), View(s'.asks, s'.orders))
  }

  /** Earlier orders stand in front of later ones at the same price. */
  ghost predicate BothAged(bids: seq<Slot>, asks: seq<Slot>, orders: map<nat, Order>) {
    Aged(bids, orders) && Aged(asks, orders)
  }

  lemma TradeAges(bids: seq<Slot>, asks: seq<Slot>, orders: map<nat, Order>,
                  bids': seq<Slot>, asks': seq<Slot>, orders': map<nat, Order>, q: int)
    requires bids != [] && asks != [] && TradeFrame(bids, asks, orders, bids', asks', orders', q)
    ensures OnlyQuantities(orders, orders')
    ensures BothAged(bids, asks, orders) ==> BothAged(bids', asks', orders')
  {
    if BothAged(bids, asks, orders) {
      AgedFrame(bids, orders, orders');
      AgedFrame(asks, orders, orders');
    }
  }

  /** What has left a side in a round has nothing left. */
  lemma LeftIsUsedUp(s: Snapshot, s': Snapshot)
    requires SideOk(true, s.bids, s.orders, s.byId) && SideOk(false, s.asks, s.orders, s.byId)
    requires SideOk(true, s'.bids, s'.orders, s'.byId) && SideOk(false, s'.asks, s'.orders, s'.byId)
    requires OnlyQuantities(s.orders, s'.orders) && Settled(s'.bids, s'.asks, s'.orders)
    ensures forall p | p in Pointers(s.bids) && p !in Pointers(s'.bids) && p in s'.orders :: s'.orders[p].quantity == 0
    ensures forall p | p in Pointers(s.asks) && p !in Pointers(s'.asks) && p in s'.orders :: s'.orders[p].quantity == 0
  {
    PointersFiled(true, s.bids, s.orders, s.byId);
    PointersFiled(false, s.asks, s.orders, s.byId);
    PointersFiled(true, s'.bids, s'.orders, s'.byId);
    PointersFiled(false, s'.asks, s'.orders, s'.byId);
  }

  /** An order with an id above all others in use keeps both sides aged. */
  lemma SubmitAges(bids: seq<Slot>, asks: seq<Slot>, orders: map<nat, Order>, byId: map<int, nat>, p: nat, o: Order)
    requires SideOk(true, bids, orders, byId) && SideOk(false, asks, orders, byId) && p !in orders && o.id !in byId
    requires BothAged(bids, asks, orders) && forall id | id in byId :: id < o.id
    ensures BothAged(BidsWith(bids, p, o), AsksWith(asks, p, o), orders[p := o])
  {
    PointersFiled(true, bids, orders, byId);
    PointersFiled(false, asks, orders, byId);
    AgedFrame(bids, orders, orders[p := o]);
    AgedFrame(asks, orders, orders[p := o]);
    SideExtends(true, bids, orders, byId, p, o);
    SideExtends(false, asks, orders, byId, p, o);
    AgedJoins(o.isBuy, if o.isBuy then bids else asks, orders[p := o], byId[o.id := p], Slot(o.price, p));
  }

  class MatchingEngine {
    const book: OrderBook
    /** The static id counter. */
    var nextId: int
    /** The orders of the order manager, which holds references to them. */
    var managed: map<int, nat>

    /** What holds at every moment: resting quantities are positive, all other orders are used up, earlier orders stand
        in front of later ones at the same price, every id in use lies below the counter, and the only references outside the book are the order manager's. */
    ghost predicate Open()
      reads this, book, book.pool, book.pool.links
    {
      && book.Valid() && Settled(book.bids, book.asks, book.orders)
      && BothAged(book.bids, book.asks, book.orders)
      && (forall id | id in book.ordersById :: id < nextId)
      && HeldBy(managed, book.outside, nextId)
    }

    ghost function Now(): Snapshot
      reads this, book, book.pool
    {
      Snapshot(book.bids, book.asks, book.orders, book.ordersById, book.pool.free)
    }

    ghost function State(): Market
      reads this, book, book.pool
    {
      Market(View(book.bids, book.orders), View(book.asks, book.orders), book.pool.free)
    }

    /** What every tick keeps: besides, the book is uncrossed. */
    ghost predicate Valid()
      reads this, book, book.pool, book.pool.links
    {
      Open() && !Crossed(View(book.bids, book.orders), View(book.asks, book.orders))
    }

    constructor (poolSize: nat)
      ensures Valid() <==> 0 < poolSize
      ensures fresh(book) && fresh(book.pool) && fresh(book.pool.links)
      ensures State() == Market([], [], Up(0, poolSize)) && book.orders == map[] && nextId == 1
    {
      book := new OrderBook(poolSize);
      nextId, managed := 1, map[];
    }

    method GenerateOrderId() returns (id: int)
      requires Open()
      modifies this`nextId
      ensures Open() && id == old(nextId) && nextId == id + 1
      ensures id !in book.ordersById && id !in managed
    {
      id := nextId;
      nextId := nextId + 1;
    }

    /** The body of the matching loop. */
    method Turn() returns (q: int)
      requires book.Valid() && book.bids != [] && book.asks != []
      modifies book`orders, book`bids, book`asks
      ensures book.Valid()
      ensures var c := old(Views(book.bids, book.asks, book.orders));
              q == Least(c.bids[0].qty, c.asks[0].qty) && Views(book.bids, book.asks, book.orders) == Traded(c, q)
      ensures old(Settled(book.bids, book.asks, book.orders)) ==> Settled(book.bids, book.asks, book.orders)
      ensures old(BothAged(book.bids, book.asks, book.orders)) ==> BothAged(book.bids, book.asks, book.orders)
      ensures OnlyQuantities(old(book.orders), book.orders)
    {
      hide SideOk, Linked, Elements, Below, Indexed, Pointers, Traded, Settled, BothAged, OnlyQuantities;
      var bids, asks, orders;
      q, bids, asks, orders := Trade(book.bids, book.asks, book.orders, book.ordersById, book.outside);
      if Settled(book.bids, book.asks, book.orders) {
        TradeSettles(book.bids, book.asks, book.orders, bids, asks, orders, q);
      }
      TradeAges(book.bids, book.asks, book.orders, bids, asks, orders, q);
      book.orders, book.bids, book.asks := orders, bids, asks;
    }

    /** `matchOrders`, for any quantities: the book in place becomes what the matching function says. */
    method MatchOrders() returns (ghost executed: int)
      requires book.Valid()
      modifies book`orders, book`bids, book`asks
      ensures book.Valid()
      ensures Views(book.bids, book.asks, book.orders).(executed := executed)
              == Match(View(old(book.bids), old(book.orders)), View(old(book.asks), old(book.orders)))
      ensures old(Settled(book.bids, book.asks, book.orders)) ==> Settled(book.bids, book.asks, book.orders)
      ensures old(BothAged(book.bids, book.asks, book.orders)) ==> BothAged(book.bids, book.asks, book.orders)
      ensures OnlyQuantities(old(book.orders), book.orders)
    {
      hide Consistent, Linked, Elements, Below, Settled, BothAged;
      executed := 0;
      ghost var c := Views(book.bids, book.asks, book.orders);
      ghost var goal, settled := Match(c.bids, c.asks), Settled(book.bids, book.asks, book.orders);
      ghost var aged := BothAged(book.bids, book.asks, book.orders);
      while book.bids != [] && book.asks != [] && book.bids[0].price >= book.asks[0].price
        invariant book.Valid() && c == Views(book.bids, book.asks, book.orders)
        invariant settled ==> Settled(book.bids, book.asks, book.orders)
        invariant aged ==> BothAged(book.bids, book.asks, book.orders)
        invariant OnlyQuantities(old(book.orders), book.orders)
        invariant goal == Match(c.bids, c.asks).(executed := executed + Match(c.bids, c.asks).executed)
        decreases |book.bids| + |book.asks|
      {
        var q := Turn();
        executed := executed + q;
        c := Traded(c, q);
      }
    }

    /** The matching round of a tick: what was crossed is cleared, and both sides lose the same quantity. */
    method Clear() returns (ghost executed: int)
      requires Open()
      modifies book`orders, book`bids, book`asks
      ensures Valid() && State() == Matched(old(State()))
      ensures executed == Volume(old(State())) >= 0 && ClearsAt(old(State()).bids, old(State()).asks, executed)
      ensures Round(old(Now()), Now())
    {
      hide SideOk, Linked, Elements, Below, ClearingVolume, Aged, OnlyQuantities, PriorityKept, Pointers;
      ghost var before, byId := Now(), book.ordersById;
      ViewSorted(true, book.bids, book.orders, book.ordersById);
      ViewSorted(false, book.asks, book.orders, book.ordersById);
      MatchClears(View(book.bids, book.orders), View(book.asks, book.orders));
      MatchConsumes(View(book.bids, book.orders), View(book.asks, book.orders));
      executed := MatchOrders();
      LeftIsUsedUp(before, Now());
      RoundKeepsPriority(true, before.bids, before.orders, byId, book.bids, book.orders, executed);
      RoundKeepsPriority(false, before.asks, before.orders, byId, book.asks, book.orders, executed);
    }

    /** An order under a fresh id: accepted unless the pool is exhausted, and then on its side of the book. */
    method Submit(id: int, symbol: string, price: real, quantity: int, isBuy: bool) returns (ptr: Option<nat>)
      requires Open() && id < nextId && (forall x | x in book.ordersById :: x < id) && quantity > 0
      modifies book, book.pool, book.pool.links
      ensures Open() && State() == Accept(old(State()), isBuy, price, quantity)
      ensures Offered(old(Now()), Now(), Order(id, symbol, price, quantity, isBuy))
      ensures ptr == None <==> old(book.pool.free) == []
      ensures forall x | x in book.ordersById :: x in old(book.ordersById) || x == id
    {
      hide SideOk, Linked, Elements, Below, View, Total, Join, BothAged, HasJoined;
      ghost var bids, asks, orders, byId, free := book.bids, book.asks, book.orders, book.ordersById, book.pool.free;
      ptr := book.AddOrder(id, symbol, price, quantity, isBuy, false);
      if ptr.Some? {
        SubmitSettles(bids, asks, orders, byId, ptr.value, Order(id, symbol, price, quantity, isBuy), free);
        SubmitAges(bids, asks, orders, byId, ptr.value, Order(id, symbol, price, quantity, isBuy));
      }
    }

    /** The extra buy of a tick: one unit at the best bid, with the pointer handed to the order manager. */
    method Replenish(symbol: string, price: real) returns (ptr: Option<nat>)
      requires Valid() && book.bids != [] && price == book.bids[0].price
      modifies this, book, book.pool, book.pool.links
      ensures Valid() && nextId == old(nextId) + 1 && State() == Accept(old(State()), true, price, 1)
      ensures Offered(old(Now()), Now(), Order(old(nextId), symbol, price, 1, true))
      ensures managed == if ptr.Some? then old(managed)[old(nextId) := ptr.value] else old(managed)
      ensures ptr == None <==> old(book.pool.free) == []
      ensures forall x | x in book.ordersById :: x in old(book.ordersById) || x == old(nextId)
    {
      var id := GenerateOrderId();
      ghost var outside := book.outside;
      ptr := JoinBest(id, symbol, price);
      if ptr.Some? {
        HoldsOneMore(managed, outside, nextId, id, ptr.value);
        managed := managed[id := ptr.value];
      }
      assert HeldBy(managed, book.outside, nextId);
    }

    method JoinBest(id: int, symbol: string, price: real) returns (ptr: Option<nat>)
      requires Valid() && book.bids != [] && price == book.bids[0].price && id < nextId && forall x | x in book.ordersById :: x < id
      modifies book, book.pool, book.pool.links
      ensures book.Valid() && Settled(book.bids, book.asks, book.orders) && State() == Accept(old(State()), true, price, 1)
      ensures BothAged(book.bids, book.asks, book.orders) && Offered(old(Now()), Now(), Order(id, symbol, price, 1, true))
      ensures !Crossed(View(book.bids, book.orders), View(book.asks, book.orders))
      ensures forall x | x in book.ordersById :: x in old(book.ordersById) || x == id
      ensures ptr == None <==> old(book.pool.free) == []
      ensures ptr == None ==> book.outside == old(book.outside)
      ensures ptr.Some? ==> ptr.value !in old(book.outside) && book.outside == old(book.outside) + multiset{ptr.value}
    {
      hide SideOk, Linked, Elements, Below, View, Total, Join, BothAged, HasJoined;
      ghost var bids, asks, orders, byId, free := book.bids, book.asks, book.orders, book.ordersById, book.pool.free;
      ptr := book.AddOrder(id, symbol, price, 1, true, true);
      if ptr.Some? {
        SubmitSettles(bids, asks, orders, byId, ptr.value, Order(id, symbol, price, 1, true), free);
        SubmitAges(bids, asks, orders, byId, ptr.value, Order(id, symbol, price, 1, true));
        BestStays(bids, asks, orders, byId, ptr.value, Order(id, symbol, price, 1, true));
      }
    }

    /** `processMarketData`: a buy at the quoted bid price and a sell at the quoted ask price, of 20 units each; a
        matching round; and one more buy of one unit at the best bid when both sides still rest and that bid is
        below 100.  Each order is entered while a block is free. */
    method ProcessMarketData(symbol: string, bidPrice: real, askPrice: real)
      returns (ghost withBuy: Snapshot, ghost withBoth: Snapshot, ghost matched: Snapshot)
      requires Valid()
      modifies this, book, book.pool, book.pool.links
      ensures Valid() && State() == AfterTick(old(State()), Tick(symbol, bidPrice, askPrice))
      ensures Offered(old(Now()), withBuy, Order(old(nextId), symbol, bidPrice, 20, true))
      ensures Offered(withBuy, withBoth, Order(old(nextId) + 1, symbol, askPrice, 20, false))
      ensures Round(withBoth, matched)
      ensures if matched.bids != [] && matched.asks != [] && matched.bids[0].price < 100.0
              then Offered(matched, Now(), Order(old(nextId) + 2, symbol, matched.bids[0].price, 1, true)) && nextId == old(nextId) + 3
              else Now() == matched && nextId == old(nextId) + 2
      ensures forall id | id in book.ordersById && id !in old(book.ordersById) :: old(nextId) <= id
    {
      hide SideOk, Linked, Elements, Below, Indexed, Pointers, View, Total, Accept, Topped, Match, BothAged, Offered, Round, Settled;
      var buyId := GenerateOrderId();
      var sellId := GenerateOrderId();
      var _ := Submit(buyId, symbol, bidPrice, DEFAULT_QUANTITY, true);
      withBuy := Now();
      var _ := Submit(sellId, symbol, askPrice, DEFAULT_QUANTITY, false);
      withBoth := Now();
      var _ := Clear();
      matched := Now();
      TopUp(symbol);
    }

    /** The end of a tick: one unit more at the best bid, when both sides rest and that bid is below 100. */
    method TopUp(symbol: string)
      requires Valid()
      modifies this, book, book.pool, book.pool.links
      ensures Valid() && State() == Topped(old(State()))
      ensures if old(book.bids) != [] && old(book.asks) != [] && old(book.bids)[0].price < 100.0
              then Offered(old(Now()), Now(), Order(old(nextId), symbol, old(book.bids)[0].price, 1, true)) && nextId == old(nextId) + 1
              else Now() == old(Now()) && nextId == old(nextId)
      ensures forall x | x in book.ordersById :: x in old(book.ordersById) || x == old(nextId)
    {
      hide SideOk, Linked, Elements, Below, Total, Accept, BothAged, Offered;
      var bestBid := book.BestBid();
      var bestAsk := book.BestAsk();
      if bestBid.Some? && bestAsk.Some? {
        if bestBid.value < 100.0 {
          var _ := Replenish(symbol, bestBid.value);
        }
      }
    }

    /** Over every run of ticks: the invariant, fresh ids, and conservation of quantity on each side. */
    method Run(ticks: seq<Tick>)
      requires Valid()
      modifies this, book, book.pool, book.pool.links
      ensures Valid() && old(nextId) + 2 * |ticks| <= nextId && State() == AfterTicks(old(State()), ticks)
      ensures Total(State().bids) + VolumeOver(old(State()), ticks) == old(Total(State().bids)) + BoughtOver(old(State()), ticks)
      ensures Total(State().asks) + VolumeOver(old(State()), ticks) == old(Total(State().asks)) + SoldOver(old(State()), ticks)
      ensures forall i | 0 <= i < |ticks| ::
                var q := Quoted(AfterTicks(old(State()), ticks[..i]), ticks[i]); ClearsAt(q.bids, q.asks, Volume(q))
    {
      hide Linked, Elements, Below, Total, AfterTick, ClearsAt, Quoted;
      ViewSorted(true, book.bids, book.orders, book.ordersById);
      ViewSorted(false, book.asks, book.orders, book.ordersById);
      RunConserves(State(), ticks);
      RunClears(State(), ticks);
      for i := 0 to |ticks|
        invariant Valid() && old(nextId) + 2 * i <= nextId && State() == AfterTicks(old(State()), ticks[..i])
      {
        assert ticks[..i + 1][..i] == ticks[..i];
        ghost var _, _, _ := ProcessMarketData(ticks[i].symbol, ticks[i].bidPrice, ticks[i].askPrice);
      }
      assert ticks[..|ticks|] == ticks;
    }
  }
}
