/** The order book of the matching engine: two price-sorted multimaps and an id index, all holding shared
    pointers to orders that live in the blocks of a memory pool.  A pointer is the number of its block. */
module OrderBooks {
  import opened Wrappers
  import opened Matching
  import opened MemoryPools
  import opened SlotSets

  datatype Order = Order(id: int, symbol: string, price: real, quantity: int, isBuy: bool)

  /** An element of a multimap: the key it was inserted under and the pointer. */
  datatype Slot = Slot(price: real, ptr: nat)

  function KeyOf(e: Slot): real { e.price }

  /** Where a multimap puts a new element. */
  function Emplace(isBuy: bool, side: seq<Slot>, e: Slot): seq<Slot> {
    Placed(KeyOf, isBuy, side, e)
  }

  /** The side without the element that points to `ptr`, if there is one. */
  function Without(side: seq<Slot>, ptr: nat): seq<Slot> {
    if side == [] then []
    else if side[0].ptr == ptr then side[1..]
    else [side[0]] + Without(side[1..], ptr)
  }

  function Pointers(side: seq<Slot>): set<nat> {
    if side == [] then {} else {side[0].ptr} + Pointers(side[1..])
  }

  predicate Indexed(id: int, ptr: nat, byId: map<int, nat>) {
    id in byId && byId[id] == ptr
  }

  /** The element is an order of this side, filed under its price and found under its id. */
  predicate Filed(isBuy: bool, e: Slot, orders: map<nat, Order>, byId: map<int, nat>) {
    && e.ptr in orders && orders[e.ptr].price == e.price && orders[e.ptr].isBuy == isBuy
    && Indexed(orders[e.ptr].id, e.ptr, byId)
  }

  /** No element of the side is better than `price`. */
  predicate Bounded(isBuy: bool, side: seq<Slot>, price: real) {
    side == [] || (!Better(isBuy, side[0].price, price) && Bounded(isBuy, side[1..], price))
  }

  /** The side is sorted from the best price on, and its elements are filed and distinct. */
  predicate SideOk(isBuy: bool, side: seq<Slot>, orders: map<nat, Order>, byId: map<int, nat>) {
    side == [] ||
    (&& Filed(isBuy, side[0], orders, byId)
     && Bounded(isBuy, side[1..], side[0].price) && side[0].ptr !in Pointers(side[1..])
     && SideOk(isBuy, side[1..], orders, byId))
  }

  ghost predicate IndexOk(orders: map<nat, Order>, byId: map<int, nat>) {
    forall id | id in byId :: byId[id] in orders && orders[byId[id]].id == id
  }

  /** Every pointer of a side is an order of that side. */
  lemma {:induction false} PointersFiled(isBuy: bool, side: seq<Slot>, orders: map<nat, Order>, byId: map<int, nat>)
    requires SideOk(isBuy, side, orders, byId)
    ensures forall p | p in Pointers(side) :: p in orders && orders[p].isBuy == isBuy && Indexed(orders[p].id, p, byId)
  {
    if side != [] { PointersFiled(isBuy, side[1..], orders, byId); }
  }

  lemma {:induction false} BoundedWeaker(isBuy: bool, side: seq<Slot>, p: real, q: real)
    requires Bounded(isBuy, side, p) && !Better(isBuy, p, q)
    ensures Bounded(isBuy, side, q)
  {
    if side != [] { BoundedWeaker(isBuy, side[1..], p, q); }
  }

  lemma {:induction false} EmplaceBounded(isBuy: bool, side: seq<Slot>, e: Slot, price: real)
    requires Bounded(isBuy, side, price) && !Better(isBuy, e.price, price)
    ensures Bounded(isBuy, Emplace(isBuy, side, e), price) && Pointers(Emplace(isBuy, side, e)) == Pointers(side) + {e.ptr}
  {
    if side == [] || Better(isBuy, e.price, side[0].price) {
      assert ([e] + side)[1..] == side;
    } else {
      EmplaceBounded(isBuy, side[1..], e, price);
      assert Emplace(isBuy, side, e)[1..] == Emplace(isBuy, side[1..], e);
    }
  }

  lemma {:induction false} EmplaceOk(isBuy: bool, side: seq<Slot>, e: Slot, orders: map<nat, Order>, byId: map<int, nat>)
    requires SideOk(isBuy, side, orders, byId) && Filed(isBuy, e, orders, byId) && e.ptr !in Pointers(side)
    ensures SideOk(isBuy, Emplace(isBuy, side, e), orders, byId)
  {
    if side == [] || Better(isBuy, e.price, side[0].price) {
      assert ([e] + side)[1..] == side;
      if side != [] { BoundedWeaker(isBuy, side[1..], side[0].price, e.price); }
    } else {
      EmplaceOk(isBuy, side[1..], e, orders, byId);
      EmplaceBounded(isBuy, side[1..], e, side[0].price);
      assert Emplace(isBuy, side, e)[1..] == Emplace(isBuy, side[1..], e);
    }
  }

  lemma {:induction false} WithoutBounded(isBuy: bool, side: seq<Slot>, ptr: nat, price: real)
    requires Bounded(isBuy, side, price)
    ensures Bounded(isBuy, Without(side, ptr), price) && Pointers(Without(side, ptr)) <= Pointers(side)
  {
    if side != [] && side[0].ptr != ptr {
      WithoutBounded(isBuy, side[1..], ptr, price);
      assert Without(side, ptr)[1..] == Without(side[1..], ptr);
    }
  }

  lemma {:induction false} WithoutOk(isBuy: bool, side: seq<Slot>, ptr: nat, orders: map<nat, Order>, byId: map<int, nat>)
    requires SideOk(isBuy, side, orders, byId)
    ensures SideOk(isBuy, Without(side, ptr), orders, byId) && Pointers(Without(side, ptr)) == Pointers(side) - {ptr}
    ensures ptr !in Pointers(side) ==> Without(side, ptr) == side
  {
    if side != [] && side[0].ptr != ptr {
      WithoutOk(isBuy, side[1..], ptr, orders, byId);
      WithoutBounded(isBuy, side[1..], ptr, side[0].price);
      assert Without(side, ptr)[1..] == Without(side[1..], ptr);
    }
  }

  /** A side depends only on the filing of its own orders. */
  lemma {:induction false} SideFrame(isBuy: bool, side: seq<Slot>, orders: map<nat, Order>, byId: map<int, nat>,
                                     orders': map<nat, Order>, byId': map<int, nat>)
    requires SideOk(isBuy, side, orders, byId)
    requires forall p | p in Pointers(side) ::
               && p in orders && p in orders' && orders'[p] == orders[p].(quantity := orders'[p].quantity)
               && (Indexed(orders[p].id, p, byId) ==> Indexed(orders[p].id, p, byId'))
    ensures SideOk(isBuy, side, orders', byId')
  {
    if side != [] { SideFrame(isBuy, side[1..], orders, byId, orders', byId'); }
  }

  /** A new order under a new id leaves what a side holds as it was. */
  lemma SideExtends(isBuy: bool, side: seq<Slot>, orders: map<nat, Order>, byId: map<int, nat>, p: nat, o: Order)
    requires SideOk(isBuy, side, orders, byId) && p !in orders && o.id !in byId
    ensures SideOk(isBuy, side, orders[p := o], byId[o.id := p]) && p !in Pointers(side)
  {
    PointersFiled(isBuy, side, orders, byId);
    SideFrame(isBuy, side, orders, byId, orders[p := o], byId[o.id := p]);
  }

  /** An id whose order does not rest on this side can leave the index, with its order or without it. */
  lemma SideShrinks(isBuy: bool, side: seq<Slot>, orders: map<nat, Order>, byId: map<int, nat>, id: int)
    requires SideOk(isBuy, side, orders, byId) && id in byId && byId[id] !in Pointers(side)
    ensures SideOk(isBuy, side, orders, byId - {id}) && SideOk(isBuy, side, orders - {byId[id]}, byId - {id})
  {
    PointersFiled(isBuy, side, orders, byId);
    SideFrame(isBuy, side, orders, byId, orders, byId - {id});
    SideFrame(isBuy, side, orders, byId, orders - {byId[id]}, byId - {id});
  }

  lemma {:induction false} BoundedAll(isBuy: bool, side: seq<Slot>, price: real)
    requires Bounded(isBuy, side, price)
    ensures forall i | 0 <= i < |side| :: !Better(isBuy, side[i].price, price)
  {
    if side != [] {
      BoundedAll(isBuy, side[1..], price);
      assert forall i | 1 <= i < |side| :: side[i] == side[1..][i - 1];
    }
  }

  /** The elements of a side by position. */
  lemma {:induction false} SideElements(isBuy: bool, side: seq<Slot>, orders: map<nat, Order>, byId: map<int, nat>)
    requires SideOk(isBuy, side, orders, byId)
    ensures forall i | 0 <= i < |side| :: Filed(isBuy, side[i], orders, byId)
    ensures forall i, j | 0 <= i < j < |side| :: !Better(isBuy, side[j].price, side[i].price)
  {
    if side != [] {
      SideElements(isBuy, side[1..], orders, byId);
      BoundedAll(isBuy, side[1..], side[0].price);
      assert forall i | 1 <= i < |side| :: side[i] == side[1..][i - 1];
    }
  }

  lemma {:induction false} WithoutAt(side: seq<Slot>, i: nat, ptr: nat)
    requires i <= |side| && forall j | 0 <= j < i :: side[j].ptr != ptr
    requires i < |side| ==> side[i].ptr == ptr
    ensures Without(side, ptr) == if i < |side| then side[..i] + side[i + 1..] else side
  {
    if i > 0 {
      WithoutAt(side[1..], i - 1, ptr);
      assert side == [side[0]] + side[1..];
      if i < |side| { assert [side[0]] + side[1..][..i - 1] == side[..i]; }
    }
  }

  /** The loop of `deleteOrder` over the elements filed under the order's price. */
  method EraseFrom(isBuy: bool, side: seq<Slot>, orders: map<nat, Order>, ghost byId: map<int, nat>, ptr: nat) returns (side': seq<Slot>)
    requires SideOk(isBuy, side, orders, byId) && ptr in orders
    ensures side' == Without(side, ptr)
  {
    hide SideOk, Without;
    SideElements(isBuy, side, orders, byId);
    var price := orders[ptr].price;
    var i := LowerBound(isBuy, side, price);
    while i < |side| && side[i].price == price
      invariant i <= |side| && forall j | 0 <= j < i :: side[j].ptr != ptr
      invariant i < |side| ==> !Better(isBuy, side[i].price, price)
    {
      if side[i].ptr == ptr {
        WithoutAt(side, i, ptr);
        return side[..i] + side[i + 1..];
      }
      i := i + 1;
    }
    assert forall j | i <= j < |side| :: side[j].price != price;
    WithoutAt(side, |side|, ptr);
    side' := side;
  }

  /** The first element filed under `price` or a worse one. */
  function LowerBound(isBuy: bool, side: seq<Slot>, price: real): (i: nat)
    ensures i <= |side|
    ensures i < |side| ==> !Better(isBuy, side[i].price, price)
    ensures forall j | 0 <= j < i :: Better(isBuy, side[j].price, price)
  {
    if side == [] || !Better(isBuy, side[0].price, price) then 0
    else
      var i := LowerBound(isBuy, side[1..], price);
      assert forall j | 1 <= j < i + 1 :: side[j] == side[1..][j - 1];
      i + 1
  }

  function QuantityOf(orders: map<nat, Order>, p: nat): int {
    if p in orders then orders[p].quantity else 0
  }

  /** The side as the matching theory sees it. */
  function View(side: seq<Slot>, orders: map<nat, Order>): (v: seq<Resting>)
    ensures |v| == |side|
  {
    if side == [] then []
    else [Resting(side[0].price, side[0].ptr, QuantityOf(orders, side[0].ptr))] + View(side[1..], orders)
  }

  /** The three indexes agree, and every order is indexed or held by a caller. */
  ghost predicate Consistent(bids: seq<Slot>, asks: seq<Slot>, orders: map<nat, Order>, byId: map<int, nat>, outside: multiset<nat>) {
    && SideOk(true, bids, orders, byId) && SideOk(false, asks, orders, byId)
    && IndexOk(orders, byId)
    && (forall p | p in orders :: Indexed(orders[p].id, p, byId) || p in outside)
    && (forall p | p in outside :: p in orders)
  }

  function BidsWith(bids: seq<Slot>, p: nat, o: Order): seq<Slot> {
    if o.isBuy then Emplace(true, bids, Slot(o.price, p)) else bids
  }

  function AsksWith(asks: seq<Slot>, p: nat, o: Order): seq<Slot> {
    if o.isBuy then asks else Emplace(false, asks, Slot(o.price, p))
  }

  function Holding(outside: multiset<nat>, p: nat, keep: bool): multiset<nat> {
    if keep then outside + multiset{p} else outside
  }

  lemma EnterOk(bids: seq<Slot>, asks: seq<Slot>, orders: map<nat, Order>, byId: map<int, nat>, outside: multiset<nat>,
                p: nat, o: Order, keep: bool)
    requires Consistent(bids, asks, orders, byId, outside) && p !in orders && o.id !in byId
    ensures Consistent(BidsWith(bids, p, o), AsksWith(asks, p, o), orders[p := o], byId[o.id := p], Holding(outside, p, keep))
  {
    SideExtends(true, bids, orders, byId, p, o);
    SideExtends(false, asks, orders, byId, p, o);
    EmplaceOk(o.isBuy, if o.isBuy then bids else asks, Slot(o.price, p), orders[p := o], byId[o.id := p]);
  }

  /** The last reference outside the book goes away. */
  lemma DropOk(bids: seq<Slot>, asks: seq<Slot>, orders: map<nat, Order>, byId: map<int, nat>, outside: multiset<nat>, p: nat)
    requires Consistent(bids, asks, orders, byId, outside) && p in outside
    ensures var left := outside - multiset{p};
            Consistent(bids, asks, if p in left || Indexed(orders[p].id, p, byId) then orders else orders - {p}, byId, left)
  {
    if !Indexed(orders[p].id, p, byId) {
      PointersFiled(true, bids, orders, byId);
      PointersFiled(false, asks, orders, byId);
      SideFrame(true, bids, orders, byId, orders - {p}, byId);
      SideFrame(false, asks, orders, byId, orders - {p}, byId);
    }
  }

  lemma ForgetOk(bids: seq<Slot>, asks: seq<Slot>, orders: map<nat, Order>, byId: map<int, nat>, outside: multiset<nat>, id: int)
    requires Consistent(bids, asks, orders, byId, outside) && id in byId
    requires byId[id] !in Pointers(bids) && byId[id] !in Pointers(asks)
    ensures Consistent(bids, asks, if byId[id] in outside then orders else orders - {byId[id]}, byId - {id}, outside)
  {
    SideShrinks(true, bids, orders, byId, id);
    SideShrinks(false, asks, orders, byId, id);
  }

  /** A new element of a side joins behind its equals. */
  lemma JoinsBehind(isBuy: bool, side: seq<Slot>, orders: map<nat, Order>, byId: map<int, nat>)
    requires SideOk(isBuy, side, orders, byId)
    ensures forall e :: HasJoined(KeyOf, isBuy, side, e, Emplace(isBuy, side, e))
  {
    SideElements(isBuy, side, orders, byId);
    forall e ensures HasJoined(KeyOf, isBuy, side, e, Emplace(isBuy, side, e)) { PlacedStands(KeyOf, isBuy, side, e); }
  }

  class OrderBook {
    const pool: MemoryPool
    /** The objects in the live blocks. */
    var orders: map<nat, Order>
    var bids: seq<Slot>
    var asks: seq<Slot>
    var ordersById: map<int, nat>
    /** The pointers held by callers. */
    var outside: multiset<nat>

    /** Live blocks are exactly the orders that are indexed or that a caller still holds. */
    ghost predicate Valid()
      reads this, pool, pool.links
    {
      && pool.Valid() && orders.Keys == pool.Live()
      && Consistent(bids, asks, orders, ordersById, outside)
    }

    constructor (poolSize: nat)
      ensures Valid() <==> 0 < poolSize
      ensures fresh(pool) && fresh(pool.links) && pool.free == Up(0, poolSize)
      ensures orders == map[] && bids == asks == [] && ordersById == map[] && outside == multiset{}
    {
      pool := new MemoryPool(poolSize);
      orders, bids, asks, ordersById, outside := map[], [], [], map[], multiset{};
    }

    /** `addOrder`: refused exactly when the id is taken or the pool is exhausted, and then nothing changes;
        otherwise the order takes a free block, its id, and the last place among its equals.  `keep` says
        whether the caller holds on to the returned pointer or drops it at once. */
    method AddOrder(id: int, symbol: string, price: real, quantity: int, isBuy: bool, keep: bool) returns (ptr: Option<nat>)
      requires Valid()
      modifies this, pool, pool.links
      ensures Valid()
      ensures ptr == None <==> id in old(ordersById) || old(pool.free) == []
      ensures ptr == None ==>
                && orders == old(orders) && bids == old(bids) && asks == old(asks)
                && ordersById == old(ordersById) && outside == old(outside) && pool.free == old(pool.free)
      ensures ptr.Some? ==>
                var p, o := ptr.value, Order(id, symbol, price, quantity, isBuy);
                && p == old(pool.free)[0] && pool.free == old(pool.free)[1..]
                && p !in old(orders) && orders == old(orders)[p := o] && ordersById == old(ordersById)[id := p]
                && bids == BidsWith(old(bids), p, o) && asks == AsksWith(old(asks), p, o)
                && outside == Holding(old(outside), p, keep)
                && (if isBuy then HasJoined(KeyOf, true, old(bids), Slot(price, p), bids) && asks == old(asks)
                    else HasJoined(KeyOf, false, old(asks), Slot(price, p), asks) && bids == old(bids))
    {
      JoinsBehind(true, bids, orders, ordersById);
      JoinsBehind(false, asks, orders, ordersById);
      hide SideOk, HasJoined, InPriceOrder, Emplace, Linked, Elements, Below, Indexed, IndexOk;
      if id in ordersById { return None; }
      var mem := pool.Allocate();
      if mem == Null { return None; }
      var p := mem.block;
      pool.Overwrite(p, Null);
      Enter(p, Order(id, symbol, price, quantity, isBuy), keep);
      ptr := Some(p);
    }

    /** The new order enters the two indexes. */
    method Enter(p: nat, o: Order, keep: bool)
      requires pool.Valid() && orders.Keys + {p} == pool.Live() && p !in orders && o.id !in ordersById
      requires Consistent(bids, asks, orders, ordersById, outside)
      modifies this
      ensures Valid()
      ensures orders == old(orders)[p := o] && ordersById == old(ordersById)[o.id := p]
      ensures bids == BidsWith(old(bids), p, o) && asks == AsksWith(old(asks), p, o)
      ensures outside == Holding(old(outside), p, keep)
    {
      hide Consistent, BidsWith, AsksWith, Holding, Linked, Elements, Below;
      assert orders[p := o].Keys == orders.Keys + {p};
      EnterOk(bids, asks, orders, ordersById, outside, p, o, keep);
      bids, asks := BidsWith(bids, p, o), AsksWith(asks, p, o);
      orders, ordersById, outside := orders[p := o], ordersById[o.id := p], Holding(outside, p, keep);
    }

    /** A caller lets go of a pointer; the last one frees the block. */
    method Release(ptr: nat)
      requires Valid() && ptr in outside
      modifies this`orders, this`outside, pool, pool.links
      ensures Valid() && outside == old(outside) - multiset{ptr}
      ensures orders == if ptr in outside || Indexed(old(orders)[ptr].id, ptr, ordersById) then old(orders) else old(orders) - {ptr}
    {
      DropOk(bids, asks, orders, ordersById, outside, ptr);
      outside := outside - multiset{ptr};
      if ptr !in outside && !Indexed(orders[ptr].id, ptr, ordersById) {
        pool.Deallocate(To(ptr));
        orders := orders - {ptr};
      }
    }

    /** `deleteOrder`: the id leaves the index and its order leaves its side, where it may no longer be; its
        block is freed unless a caller still holds it. */
    method DeleteOrder(id: int) returns (ok: bool)
      requires Valid()
      modifies this`orders, this`bids, this`asks, this`ordersById, pool, pool.links
      ensures Valid() && (ok <==> id in old(ordersById))
      ensures !ok ==> orders == old(orders) && bids == old(bids) && asks == old(asks) && ordersById == old(ordersById)
      ensures ok ==>
                var ptr := old(ordersById[id]);
                && ordersById == old(ordersById) - {id}
                && orders == (if ptr in outside then old(orders) else old(orders) - {ptr})
                && bids == Without(old(bids), ptr) && asks == Without(old(asks), ptr)
    {
      hide SideOk, Linked, Elements, Below, Without;
      if id !in ordersById { return false; }
      var ptr := ordersById[id];
      PointersFiled(true, bids, orders, ordersById);
      PointersFiled(false, asks, orders, ordersById);
      WithoutOk(true, bids, ptr, orders, ordersById);
      WithoutOk(false, asks, ptr, orders, ordersById);
      if orders[ptr].isBuy {
        bids := EraseFrom(true, bids, orders, ordersById, ptr);
      } else {
        asks := EraseFrom(false, asks, orders, ordersById, ptr);
      }
      Forget(id, ptr);
      ok := true;
    }

    /** The id leaves the index, and its order's block is freed when nothing holds it any more. */
    method Forget(id: int, ptr: nat)
      requires Valid() && id in ordersById && ordersById[id] == ptr
      requires ptr !in Pointers(bids) && ptr !in Pointers(asks)
      modifies this`orders, this`ordersById, pool, pool.links
      ensures Valid() && ordersById == old(ordersById) - {id}
      ensures orders == if ptr in outside then old(orders) else old(orders) - {ptr}
    {
      ForgetOk(bids, asks, orders, ordersById, outside, id);
      ordersById := ordersById - {id};
      if ptr !in outside {
        pool.Deallocate(To(ptr));
        orders := orders - {ptr};
      }
    }

    method UpdateQuantity(id: int, quantity: int) returns (ok: bool)
      requires Valid()
      modifies this`orders
      ensures Valid() && (ok <==> id in ordersById && quantity > 0)
      ensures orders == if ok then old(orders)[ordersById[id] := old(orders)[ordersById[id]].(quantity := quantity)] else old(orders)
    {
      if id !in ordersById || quantity <= 0 { return false; }
      var p := ordersById[id];
      PointersFiled(true, bids, orders, ordersById);
      PointersFiled(false, asks, orders, ordersById);
      SideFrame(true, bids, orders, ordersById, orders[p := orders[p].(quantity := quantity)], ordersById);
      SideFrame(false, asks, orders, ordersById, orders[p := orders[p].(quantity := quantity)], ordersById);
      orders := orders[p := orders[p].(quantity := quantity)];
      ok := true;
    }

    /** `bestBid`: the best price among the resting buy orders. */
    function BestBid(): (price: Option<real>)
      reads this
      ensures price == None <==> bids == []
      ensures price.Some? ==> exists e :: e in bids && e.price == price.value
      ensures price.Some? && SideOk(true, bids, orders, ordersById) ==> Bounded(true, bids, price.value)
    {
      if bids == [] then None else assert bids[0] in bids; Some(bids[0].price)
    }

    function BestAsk(): (price: Option<real>)
      reads this
      ensures price == None <==> asks == []
      ensures price.Some? ==> exists e :: e in asks && e.price == price.value
      ensures price.Some? && SideOk(false, asks, orders, ordersById) ==> Bounded(false, asks, price.value)
    {
      if asks == [] then None else assert asks[0] in asks; Some(asks[0].price)
    }
  }
}
