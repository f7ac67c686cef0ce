/** Time priority in the order book: who came first at a price is in front, and is used up first. */
module TimePriority {
  import opened Wrappers
  import opened Matching
  import opened OrderBooks

  /** Ids are given out in ascending order, so the id says who came first. */
  function IdOf(orders: map<nat, Order>, p: nat): int {
    if p in orders then orders[p].id else 0
  }

  /** Every element filed under `price` is a later order than `id`. */
  predicate LaterAt(side: seq<Slot>, orders: map<nat, Order>, price: real, id: int) {
    side == [] || ((side[0].price == price ==> id < IdOf(orders, side[0].ptr)) && LaterAt(side[1..], orders, price, id))
  }

  /** Among equal prices, earlier orders are in front of later ones. */
  predicate Aged(side: seq<Slot>, orders: map<nat, Order>) {
    side == [] || (LaterAt(side[1..], orders, side[0].price, IdOf(orders, side[0].ptr)) && Aged(side[1..], orders))
  }

  /** Nothing but quantities is different. */
  ghost predicate OnlyQuantities(before: map<nat, Order>, after: map<nat, Order>) {
    before.Keys == after.Keys && forall p | p in before :: after[p] == before[p].(quantity := after[p].quantity)
  }

  lemma {:induction false} LaterFrame(side: seq<Slot>, orders: map<nat, Order>, orders': map<nat, Order>, price: real, id: int)
    requires LaterAt(side, orders, price, id) && forall p | p in Pointers(side) :: IdOf(orders, p) == IdOf(orders', p)
    ensures LaterAt(side, orders', price, id)
  {
    if side != [] { LaterFrame(side[1..], orders, orders', price, id); }
  }

  lemma {:induction false} AgedFrame(side: seq<Slot>, orders: map<nat, Order>, orders': map<nat, Order>)
    requires Aged(side, orders) && forall p | p in Pointers(side) :: IdOf(orders, p) == IdOf(orders', p)
    ensures Aged(side, orders')
  {
    if side != [] {
      LaterFrame(side[1..], orders, orders', side[0].price, IdOf(orders, side[0].ptr));
      AgedFrame(side[1..], orders, orders');
    }
  }

  lemma {:induction false} LaterJoins(isBuy: bool, side: seq<Slot>, orders: map<nat, Order>, e: Slot, price: real, id: int)
    requires LaterAt(side, orders, price, id) && (e.price == price ==> id < IdOf(orders, e.ptr))
    ensures LaterAt(Emplace(isBuy, side, e), orders, price, id)
  {
    if side == [] || Better(isBuy, e.price, side[0].price) {
      assert ([e] + side)[1..] == side;
    } else {
      LaterJoins(isBuy, side[1..], orders, e, price, id);
      assert Emplace(isBuy, side, e)[1..] == Emplace(isBuy, side[1..], e);
    }
  }

  /** Worse prices are other prices. */
  lemma {:induction false} LaterElsewhere(isBuy: bool, side: seq<Slot>, orders: map<nat, Order>, price: real, bound: real, id: int)
    requires Bounded(isBuy, side, bound) && Better(isBuy, price, bound)
    ensures LaterAt(side, orders, price, id)
  {
    if side != [] { LaterElsewhere(isBuy, side[1..], orders, price, bound, id); }
  }

  /** The latest order joins behind its equals. */
  lemma {:induction false} AgedJoins(isBuy: bool, side: seq<Slot>, orders: map<nat, Order>, byId: map<int, nat>, e: Slot)
    requires SideOk(isBuy, side, orders, byId) && Aged(side, orders)
    requires forall p | p in Pointers(side) :: IdOf(orders, p) < IdOf(orders, e.ptr)
    ensures Aged(Emplace(isBuy, side, e), orders)
  {
    if side == [] || Better(isBuy, e.price, side[0].price) {
      assert ([e] + side)[1..] == side;
      if side != [] { LaterElsewhere(isBuy, side[1..], orders, e.price, side[0].price, IdOf(orders, e.ptr)); }
    } else {
      AgedJoins(isBuy, side[1..], orders, byId, e);
      LaterJoins(isBuy, side[1..], orders, e, side[0].price, IdOf(orders, side[0].ptr));
      assert Emplace(isBuy, side, e)[1..] == Emplace(isBuy, side[1..], e);
    }
  }

  lemma {:induction false} LaterElements(side: seq<Slot>, orders: map<nat, Order>, price: real, id: int)
    requires LaterAt(side, orders, price, id)
    ensures forall j | 0 <= j < |side| && side[j].price == price :: id < IdOf(orders, side[j].ptr)
  {
    if side != [] {
      LaterElements(side[1..], orders, price, id);
      assert forall j | 1 <= j < |side| :: side[j] == side[1..][j - 1];
    }
  }

  lemma {:induction false} AgedElements(side: seq<Slot>, orders: map<nat, Order>)
    requires Aged(side, orders)
    ensures forall i, j | 0 <= i < j < |side| && side[i].price == side[j].price :: IdOf(orders, side[i].ptr) < IdOf(orders, side[j].ptr)
  {
    if side != [] {
      AgedElements(side[1..], orders);
      LaterElements(side[1..], orders, side[0].price, IdOf(orders, side[0].ptr));
      assert forall j | 1 <= j < |side| :: side[j] == side[1..][j - 1];
    }
  }

  /** `p` goes before `q`: it has the better price, or the same price and came first. */
  predicate GoesBefore(isBuy: bool, orders: map<nat, Order>, p: nat, q: nat)
    requires p in orders && q in orders
  {
    Better(isBuy, orders[p].price, orders[q].price) || (orders[p].price == orders[q].price && orders[p].id < orders[q].id)
  }

  /** Of two orders of a side, the one that goes second has traded only if the one that goes first is used up. */
  ghost predicate PriorityKept(isBuy: bool, side: seq<Slot>, before: map<nat, Order>, after: map<nat, Order>)
    requires before.Keys == after.Keys
  {
    forall p, q | p in Pointers(side) && q in Pointers(side) && p in before && q in before && GoesBefore(isBuy, before, p, q)
      :: after[q].quantity < before[q].quantity ==> after[p].quantity == 0
  }

  lemma {:induction false} PositionOf(side: seq<Slot>, p: nat) returns (i: nat)
    requires p in Pointers(side)
    ensures i < |side| && side[i].ptr == p
  {
    i := 0;
    if side[0].ptr != p {
      var j := PositionOf(side[1..], p);
      i := j + 1;
    }
  }

  lemma {:induction false} ViewElements(side: seq<Slot>, orders: map<nat, Order>)
    ensures forall i | 0 <= i < |side| :: View(side, orders)[i] == Resting(side[i].price, side[i].ptr, QuantityOf(orders, side[i].ptr))
  {
    if side != [] {
      ViewElements(side[1..], orders);
      assert forall i | 1 <= i < |side| :: side[i] == side[1..][i - 1] && View(side, orders)[i] == View(side[1..], orders)[i - 1];
    }
  }

  lemma {:induction false} PointerAt(side: seq<Slot>, i: nat)
    requires i < |side|
    ensures side[i].ptr in Pointers(side)
  {
    if i > 0 { PointerAt(side[1..], i - 1); }
  }

  lemma {:induction false} SideDistinct(isBuy: bool, side: seq<Slot>, orders: map<nat, Order>, byId: map<int, nat>)
    requires SideOk(isBuy, side, orders, byId)
    ensures forall i, j | 0 <= i < j < |side| :: side[i].ptr != side[j].ptr
  {
    if side != [] {
      SideDistinct(isBuy, side[1..], orders, byId);
      forall j | 1 <= j < |side| ensures side[0].ptr != side[j].ptr { PointerAt(side[1..], j - 1); }
      assert forall j | 1 <= j < |side| :: side[j] == side[1..][j - 1];
    }
  }

  /** In a sorted and aged side, who goes first is in front. */
  lemma InFront(isBuy: bool, side: seq<Slot>, orders: map<nat, Order>, byId: map<int, nat>, p: nat, q: nat) returns (i: nat, j: nat)
    requires SideOk(isBuy, side, orders, byId) && Aged(side, orders)
    requires p in Pointers(side) && q in Pointers(side) && p in orders && q in orders && GoesBefore(isBuy, orders, p, q)
    ensures i < j < |side| && side[i].ptr == p && side[j].ptr == q
  {
    hide SideOk, Aged;
    i := PositionOf(side, p);
    j := PositionOf(side, q);
    SideElements(isBuy, side, orders, byId);
    AgedElements(side, orders);
  }

  /** A round that takes its volume off the front keeps price-time priority, when what has left the side is used up. */
  lemma RoundKeepsPriority(isBuy: bool, side: seq<Slot>, orders: map<nat, Order>, byId: map<int, nat>,
                           side': seq<Slot>, orders': map<nat, Order>, n: int)
    requires SideOk(isBuy, side, orders, byId) && Aged(side, orders) && OnlyQuantities(orders, orders')
    requires View(side', orders') == Consume(View(side, orders), n)
    requires forall p | p in Pointers(side) && p !in Pointers(side') && p in orders' :: orders'[p].quantity == 0
    ensures PriorityKept(isBuy, side, orders, orders')
  {
    hide SideOk, Aged, Pointers;
    forall p, q | p in Pointers(side) && q in Pointers(side) && p in orders && q in orders && GoesBefore(isBuy, orders, p, q)
      ensures orders'[q].quantity < orders[q].quantity ==> orders'[p].quantity == 0
    {
      var i, j := InFront(isBuy, side, orders, byId, p, q);
      PairKeepsPriority(isBuy, side, orders, byId, side', orders', n, i, j);
    }
  }

  lemma {:induction false} NotPointed(side: seq<Slot>, orders: map<nat, Order>, p: nat)
    requires forall r | r in View(side, orders) :: r.ptr != p
    ensures p !in Pointers(side)
  {
    if side != [] {
      var v := View(side, orders);
      assert v[0] in v && v[1..] == View(side[1..], orders);
      NotPointed(side[1..], orders, p);
    }
  }

  lemma PairKeepsPriority(isBuy: bool, side: seq<Slot>, orders: map<nat, Order>, byId: map<int, nat>,
                          side': seq<Slot>, orders': map<nat, Order>, n: int, i: nat, j: nat)
    requires SideOk(isBuy, side, orders, byId) && i < j < |side| && side[i].ptr in orders' && side[j].ptr in orders && side[j].ptr in orders'
    requires View(side', orders') == Consume(View(side, orders), n)
    requires side[i].ptr !in Pointers(side') ==> orders'[side[i].ptr].quantity == 0
    ensures orders'[side[j].ptr].quantity < orders[side[j].ptr].quantity ==> orders'[side[i].ptr].quantity == 0
  {
    hide SideOk, Pointers, View, Consume;
    var v, v' := View(side, orders), View(side', orders');
    ViewElements(side, orders);
    ViewElements(side', orders');
    SideDistinct(isBuy, side, orders, byId);
    ConsumedInOrder(v, n, i, j);
    if v[j] in v' {
      var k :| 0 <= k < |v'| && v'[k] == v[j];
    } else {
      NotPointed(side', orders', side[i].ptr);
    }
  }
}
