/** The two limit order books that must agree: one keeps copies of each order in two maps, the other keeps
    one pooled object per order and shares pointers to it between two maps. */
module LimitOrderBooks {
  import opened Wrappers
  import opened PriceLevels
  import opened ObjectPools

  /** The keys of an ordered map in ascending order. */
  method AscendingKeys<V>(levels: map<real, V>) returns (keys: seq<real>)
    ensures Ascending(keys) && forall p :: p in keys <==> p in levels
  {
    keys := [];
    var rest := levels.Keys;
    while rest != {}
      invariant rest <= levels.Keys && Ascending(keys)
      invariant forall p :: p in keys <==> p in levels && p !in rest
      invariant forall p, q | p in keys && q in rest :: p < q
      decreases rest
    {
      ghost var least := LeastExists(rest);
      assert forall i | 0 <= i < |keys| :: keys[i] in keys;
      var p :| p in rest && forall q | q in rest :: p <= q;
      keys := keys + [p];
      rest := rest - {p};
    }
  }

  lemma Member<T>(s: set<T>) returns (x: T)
    requires s != {}
    ensures x in s
  {
    x :| x in s;
  }

  lemma {:induction false} LeastExists(s: set<real>) returns (least: real)
    requires s != {}
    ensures least in s && forall q | q in s :: least <= q
    decreases s
  {
    var x := Member(s);
    least := x;
    var rest := s - {x};
    if rest != {} {
      var l := LeastExists(rest);
      if l < x { least := l; }
      forall q | q in s ensures least <= q { assert q == x || q in rest; }
    } else {
      forall q | q in s ensures q == x { assert q !in rest; }
    }
  }

  // ---------------------------------------------------------------- copies in two maps

  class UnoptimizedOrderBook {
    var orderLevels: map<real, map<string, Order>>
    var orderLookup: map<string, Order>
    var activeOrderCount: nat

    /** The two maps hold the same orders, each at the level of its price. */
    ghost predicate Valid()
      reads this
    {
      && WellFormed(orderLookup) && activeOrderCount == |orderLookup|
      && orderLevels == Levels(orderLookup, PricesOf(orderLookup))
    }

    constructor ()
      ensures Valid() && orderLookup == map[]
    {
      orderLevels, orderLookup, activeOrderCount := map[], map[], 0;
    }

    method AddOrder(id: string, price: real, quantity: int, isBuy: bool)
      requires Valid()
      modifies this
      ensures Valid() && orderLookup == After(old(orderLookup), Add(id, price, quantity, isBuy))
      ensures orderLookup == if id != "" && quantity > 0 && price > 0.0 && id !in old(orderLookup)
                             then old(orderLookup)[id := Order(id, price, quantity, isBuy)] else old(orderLookup)
    {
      if id == "" || quantity <= 0 || price <= 0.0 { return; }
      if id in orderLookup { return; }
      hide Put, Levels;
      var newOrder := Order(id, price, quantity, isBuy);
      PutGroups(orderLookup, PricesOf(orderLookup), price, id, newOrder);
      orderLevels := Put(orderLevels, price, id, newOrder);
      orderLookup := orderLookup[id := newOrder];
      activeOrderCount := activeOrderCount + 1;
      assert PricesOf(orderLookup) == PricesOf(old(orderLookup))[id := price];
    }

    method ModifyOrder(id: string, newPrice: real, newQuantity: int)
      requires Valid()
      modifies this
      ensures Valid() && orderLookup == After(old(orderLookup), Modify(id, newPrice, newQuantity))
      ensures orderLookup == if id != "" && newQuantity > 0 && newPrice > 0.0 && id in old(orderLookup)
                             then old(orderLookup)[id := Order(id, newPrice, newQuantity, old(orderLookup)[id].isBuy)] else old(orderLookup)
    {
      if id == "" || newQuantity <= 0 || newPrice <= 0.0 { return; }
      if id !in orderLookup { return; }
      hide Put, Take, Levels;
      var oldOrder := orderLookup[id];
      var newOrder := oldOrder.(price := newPrice, quantity := newQuantity);
      MoveGroups(orderLookup, PricesOf(orderLookup), id, newPrice, newOrder);
      assert PricesOf(orderLookup[id := newOrder]) == PricesOf(orderLookup)[id := newPrice];
      orderLevels := Put(Take(orderLevels, oldOrder.price, id), newPrice, id, newOrder);
      orderLookup := orderLookup[id := newOrder];
    }

    method DeleteOrder(id: string)
      requires Valid()
      modifies this
      ensures Valid() && orderLookup == After(old(orderLookup), Delete(id))
      ensures orderLookup == old(orderLookup) - {id}
    {
      if id == "" { assert "" !in orderLookup; return; }
      if id !in orderLookup { return; }
      TakeGroups(orderLookup, PricesOf(orderLookup), id);
      orderLevels := Take(orderLevels, orderLookup[id].price, id);
      orderLookup := orderLookup - {id};
      activeOrderCount := activeOrderCount - 1;
      assert PricesOf(orderLookup) == PricesOf(old(orderLookup)) - {id};
    }

    method GetOrder(id: string) returns (r: Option<Order>)
      requires Valid()
      ensures r == if id in orderLookup then Some(orderLookup[id]) else None
    {
      r := if id in orderLookup then Some(orderLookup[id]) else None;
    }

    method GetAllActivePrices() returns (prices: seq<real>)
      requires Valid()
      ensures IsPriceList(orderLookup, prices)
    {
      prices := AscendingKeys(orderLevels);
    }

    method GetOrdersAtPrice(price: real) returns (level: Option<Book>)
      requires Valid()
      ensures level == None <==> OrdersAt(orderLookup, price) == map[]
      ensures level.Some? ==> level.value == OrdersAt(orderLookup, price)
    {
      LevelAnswer(orderLookup, PricesOf(orderLookup), price);
      assert Level(orderLookup, PricesOf(orderLookup), price) == OrdersAt(orderLookup, price);
      level := if price in orderLevels then Some(orderLevels[price]) else None;
    }

    /** `getBestBidLevel` scans the levels from the highest price, `getBestAskLevel` from the lowest. */
    method GetBestLevel(isBuy: bool) returns (r: Option<(real, Book)>)
      requires Valid()
      ensures IsBestLevel(orderLookup, isBuy, r)
    {
      var prices := AscendingKeys(orderLevels);
      forall p | p in orderLevels ensures orderLevels[p] == OrdersAt(orderLookup, p) {
      }
      var p := Scan(orderLookup, orderLevels, isBuy, prices);
      r := None;
      if p.Some? {
        r := Some((p.value, orderLevels[p.value]));
      }
    }
  }

  lemma LevelAnswer<V>(lookup: map<string, V>, prices: map<string, real>, p: real)
    requires lookup.Keys == prices.Keys
    ensures p in Levels(lookup, prices) <==> Level(lookup, prices, p) != map[]
  {
    if p in prices.Values {
      var id :| id in prices && prices[id] == p;
      assert id in Level(lookup, prices, p);
    }
  }

  /** The levels of a book: the orders at each active price. */
  ghost predicate AreLevels(b: Book, levels: map<real, Book>) {
    levels.Keys == PricesOf(b).Values && forall p | p in levels :: levels[p] == OrdersAt(b, p)
  }

  /** The `n` levels scanned so far have no order of the side. */
  ghost predicate Scanned(b: Book, isBuy: bool, prices: seq<real>, n: nat)
    requires n <= |prices|
  {
    forall id | id in b && b[id].isBuy == isBuy :: b[id].price !in (if isBuy then prices[|prices| - n..] else prices[..n])
  }

  /** The price the scan looks at after `n` levels. */
  function Candidate(isBuy: bool, prices: seq<real>, n: nat): real
    requires n < |prices|
  {
    prices[if isBuy then |prices| - 1 - n else n]
  }

  lemma ScanFinds(b: Book, levels: map<real, Book>, isBuy: bool, prices: seq<real>, n: nat)
    requires IsPriceList(b, prices) && AreLevels(b, levels) && n < |prices| && Scanned(b, isBuy, prices, n)
    ensures var p := Candidate(isBuy, prices, n);
            && p in levels
            && ((exists id :: id in levels[p] && levels[p][id].isBuy == isBuy) ==> IsBestLevel(b, isBuy, Some((p, OrdersAt(b, p)))))
  {
    var p := Candidate(isBuy, prices, n);
    assert p in prices;
    forall id | id in b && b[id].isBuy == isBuy ensures if isBuy then b[id].price <= p else p <= b[id].price {
      assert id in PricesOf(b) && b[id].price in PricesOf(b).Values;
      assert b[id].price in prices;
      var j :| 0 <= j < |prices| && prices[j] == b[id].price;
    }
  }

  lemma ScanPasses(b: Book, levels: map<real, Book>, isBuy: bool, prices: seq<real>, n: nat)
    requires IsPriceList(b, prices) && AreLevels(b, levels) && n < |prices| && Scanned(b, isBuy, prices, n)
    requires var p := Candidate(isBuy, prices, n);
             p in levels && forall id | id in levels[p] :: levels[p][id].isBuy != isBuy
    ensures Scanned(b, isBuy, prices, n + 1)
  {
    var p := Candidate(isBuy, prices, n);
    forall id | id in b && b[id].isBuy == isBuy ensures b[id].price != p {
      assert id in OrdersAt(b, b[id].price);
    }
    var k := if isBuy then |prices| - 1 - n else n;
    assert prices[k..] == [prices[k]] + prices[k + 1..];
    assert prices[..k + 1] == prices[..k] + [prices[k]];
  }

  lemma ScanEnds(b: Book, isBuy: bool, prices: seq<real>)
    requires IsPriceList(b, prices) && Scanned(b, isBuy, prices, |prices|)
    ensures forall id | id in b :: b[id].isBuy != isBuy
  {
    forall id | id in b ensures b[id].isBuy != isBuy {
      assert id in PricesOf(b) && b[id].price in PricesOf(b).Values;
      assert b[id].price in prices;
      assert prices[|prices| - |prices|..] == prices[..|prices|] == prices;
    }
  }

  /** The scan for the best level over the ascending price list. */
  method Scan(ghost b: Book, levels: map<real, Book>, isBuy: bool, prices: seq<real>) returns (best: Option<real>)
    requires IsPriceList(b, prices) && AreLevels(b, levels)
    ensures best == None ==> forall id | id in b :: b[id].isBuy != isBuy
    ensures best.Some? ==> best.value in levels && IsBestLevel(b, isBuy, Some((best.value, OrdersAt(b, best.value))))
  {
    hide IsPriceList, AreLevels, IsBestLevel;
    assert Scanned(b, isBuy, prices, 0);
    hide Scanned;
    for n := 0 to |prices|
      invariant Scanned(b, isBuy, prices, n)
    {
      var p := Candidate(isBuy, prices, n);
      ScanFinds(b, levels, isBuy, prices, n);
      if exists id :: id in levels[p] && levels[p][id].isBuy == isBuy { return Some(p); }
      ScanPasses(b, levels, isBuy, prices, n);
    }
    ScanEnds(b, isBuy, prices);
    best := None;
  }

  // ---------------------------------------------------------------- pooled objects, shared pointers

  /** The orders behind the pointers. */
  function Deref(lookup: map<string, nat>, slots: seq<Order>): Book {
    map id | id in lookup && lookup[id] < |slots| :: slots[lookup[id]]
  }

  /** Live pointers are distinct slots off the free list. */
  ghost predicate Live(lookup: map<string, nat>, slots: seq<Order>, free: seq<nat>) {
    && (forall id | id in lookup :: lookup[id] < |slots| && lookup[id] !in free)
    && (forall id, id' | id in lookup && id' in lookup && lookup[id] == lookup[id'] :: id == id')
  }

  /** Live pointers as above, and levels and lookup hold the same pointers, each in the level of its order's price only. */
  ghost predicate Shared(levels: map<real, map<string, nat>>, lookup: map<string, nat>, slots: seq<Order>, free: seq<nat>) {
    && Live(lookup, slots, free)
    && WellFormed(Deref(lookup, slots))
    && lookup.Keys == PricesOf(Deref(lookup, slots)).Keys
    && levels == Levels(lookup, PricesOf(Deref(lookup, slots)))
  }

  /** A new object in a free slot: its pointer goes into its level and into the lookup. */
  lemma InstallKeeps(levels: map<real, map<string, nat>>, lookup: map<string, nat>, slots: seq<Order>, free: seq<nat>,
                     o: Order, p: nat, free': seq<nat>)
    requires Shared(levels, lookup, slots, free) && o.id !in lookup && Acceptable(o.id, o.price, o.quantity)
    requires p < |slots| && p in free && forall q :: q in free' <==> q in free && q != p
    ensures Shared(Put(levels, o.price, o.id, p), lookup[o.id := p], slots[p := o], free')
    ensures Deref(lookup[o.id := p], slots[p := o]) == Deref(lookup, slots)[o.id := o]
  {
    hide Levels;
    hide Put;
    var b := Deref(lookup, slots);
    PutGroups(lookup, PricesOf(b), o.price, o.id, p);
    InstallPointer(lookup, slots, free, o, p, free');
    hide Live;
    hide Deref;
    assert PricesOf(b[o.id := o]) == PricesOf(b)[o.id := o.price];
  }

  lemma InstallPointer(lookup: map<string, nat>, slots: seq<Order>, free: seq<nat>, o: Order, p: nat, free': seq<nat>)
    requires Live(lookup, slots, free) && o.id !in lookup
    requires p < |slots| && p in free && forall q :: q in free' <==> q in free && q != p
    ensures Live(lookup[o.id := p], slots[p := o], free')
    ensures Deref(lookup[o.id := p], slots[p := o]) == Deref(lookup, slots)[o.id := o]
  {
  }

  /** Writing through a live pointer changes that one order and nothing else behind the other pointers. */
  lemma WriteThrough(lookup: map<string, nat>, slots: seq<Order>, free: seq<nat>, id: string, o: Order)
    requires Live(lookup, slots, free) && id in lookup
    ensures Live(lookup, slots[lookup[id] := o], free)
    ensures Deref(lookup, slots[lookup[id] := o]) == Deref(lookup, slots)[id := o]
  {
  }

  /** A modified order, its pointer moved to the level of its new price if that is another one. */
  lemma ModifyKeeps(levels: map<real, map<string, nat>>, lookup: map<string, nat>, slots: seq<Order>, free: seq<nat>,
                    id: string, o: Order)
    requires Shared(levels, lookup, slots, free) && id in lookup && o.id == id && Acceptable(id, o.price, o.quantity)
    ensures slots[lookup[id]].price in levels
    ensures Deref(lookup, slots[lookup[id] := o]) == Deref(lookup, slots)[id := o]
    ensures slots[lookup[id]].price == o.price ==> Shared(levels, lookup, slots[lookup[id] := o], free)
    ensures slots[lookup[id]].price != o.price ==>
              Shared(Put(Take(levels, slots[lookup[id]].price, id), o.price, id, lookup[id]), lookup, slots[lookup[id] := o], free)
  {
    hide Put;
    hide Take;
    var b := Deref(lookup, slots);
    WriteThrough(lookup, slots, free, id, o);
    MoveGroups(lookup, PricesOf(b), id, o.price, lookup[id]);
    assert lookup[id := lookup[id]] == lookup;
    assert PricesOf(b[id := o]) == PricesOf(b)[id := o.price];
    assert b[id].price == o.price ==> PricesOf(b)[id := o.price] == PricesOf(b);
  }

  /** A deleted order, its slot back on the free list. */
  lemma DeleteKeeps(levels: map<real, map<string, nat>>, lookup: map<string, nat>, slots: seq<Order>, free: seq<nat>, id: string)
    requires Shared(levels, lookup, slots, free) && id in lookup
    ensures slots[lookup[id]].price in levels
    ensures Shared(Take(levels, slots[lookup[id]].price, id), lookup - {id}, slots, free + [lookup[id]])
    ensures Deref(lookup - {id}, slots) == Deref(lookup, slots) - {id}
  {
    hide Take;
    var b := Deref(lookup, slots);
    TakeGroups(lookup, PricesOf(b), id);
    DeletePointer(lookup, slots, free, id);
    hide Levels, Live, Deref;
    assert PricesOf(b - {id}) == PricesOf(b) - {id};
  }

  lemma DeletePointer(lookup: map<string, nat>, slots: seq<Order>, free: seq<nat>, id: string)
    requires Live(lookup, slots, free) && id in lookup
    ensures lookup[id] < |slots| && id in Deref(lookup, slots) && Deref(lookup, slots)[id] == slots[lookup[id]]
    ensures Live(lookup - {id}, slots, free + [lookup[id]])
    ensures Deref(lookup - {id}, slots) == Deref(lookup, slots) - {id}
  {
  }

  /** Each level, seen through its pointers, is the orders at its price. */
  lemma SharedLevel(levels: map<real, map<string, nat>>, lookup: map<string, nat>, slots: seq<Order>, free: seq<nat>, price: real)
    requires Shared(levels, lookup, slots, free)
    ensures price in levels <==> OrdersAt(Deref(lookup, slots), price) != map[]
    ensures price in levels ==> Deref(levels[price], slots) == OrdersAt(Deref(lookup, slots), price)
  {
    var b := Deref(lookup, slots);
    LevelAnswer(lookup, PricesOf(b), price);
    assert Deref(Level(lookup, PricesOf(b), price), slots) == OrdersAt(b, price);
    assert Level(lookup, PricesOf(b), price).Keys == OrdersAt(b, price).Keys;
    assert Level(lookup, PricesOf(b), price) == map[] <==> Level(lookup, PricesOf(b), price).Keys == {};
    assert OrdersAt(b, price) == map[] <==> OrdersAt(b, price).Keys == {};
  }

  lemma SameSize(levels: map<real, map<string, nat>>, lookup: map<string, nat>, slots: seq<Order>, free: seq<nat>)
    requires Shared(levels, lookup, slots, free)
    ensures Deref(lookup, slots).Keys == lookup.Keys && |Deref(lookup, slots)| == |lookup|
  {
    assert |Deref(lookup, slots).Keys| == |Deref(lookup, slots)| && |lookup.Keys| == |lookup|;
  }

  class OptimizedOrderBook {
    var orderLevels: map<real, map<string, nat>>
    var orderLookup: map<string, nat>
    const orderPool: ObjectPool<Order>
    var activeOrderCount: nat

    ghost predicate Valid()
      reads this, orderPool
    {
      && orderPool.Valid()
      && Shared(orderLevels, orderLookup, orderPool.slots, orderPool.freeIndices)
      && |orderLookup| == activeOrderCount == orderPool.usedCount
    }

    ghost function Contents(): Book
      reads this, orderPool
    {
      Deref(orderLookup, orderPool.slots)
    }

    constructor (initialPoolCapacity: nat)
      ensures Valid() && fresh(orderPool) && Contents() == map[] && orderPool.capacity == initialPoolCapacity
    {
      orderPool := new ObjectPool(initialPoolCapacity, Order("", 0.0, 0, true));
      orderLevels, orderLookup, activeOrderCount := map[], map[], 0;
    }

    /** `addOrder`: it raises exactly when the order is acceptable and new but the pool is exhausted, and then
        changes nothing. */
    method AddOrder(id: string, price: real, quantity: int, isBuy: bool) returns (raised: bool)
      requires Valid()
      modifies this, orderPool
      ensures Valid() && orderPool.capacity == old(orderPool.capacity)
      ensures raised <==> id != "" && quantity > 0 && price > 0.0 && id !in old(Contents()) && |old(Contents())| == orderPool.capacity
      ensures Contents() == if raised then old(Contents()) else After(old(Contents()), Add(id, price, quantity, isBuy))
      ensures Contents() == if !raised && id != "" && quantity > 0 && price > 0.0 && id !in old(Contents())
                            then old(Contents())[id := Order(id, price, quantity, isBuy)] else old(Contents())
      ensures raised ==> unchanged(this) && unchanged(orderPool)
    {
      hide Shared;
      SameSize(orderLevels, orderLookup, orderPool.slots, orderPool.freeIndices);
      if id == "" || quantity <= 0 || price <= 0.0 { return false; }
      if id in orderLookup { return false; }
      var newOrder := Order(id, price, quantity, isBuy);
      ghost var slots, free := orderPool.slots, orderPool.freeIndices;
      var p := orderPool.Allocate(newOrder);
      if p == None { return true; }
      InstallKeeps(orderLevels, orderLookup, slots, free, newOrder, p.value, orderPool.freeIndices);
      orderLevels := Put(orderLevels, price, id, p.value);
      orderLookup := orderLookup[id := p.value];
      activeOrderCount := activeOrderCount + 1;
      raised := false;
    }

    /** `modifyOrder`: writes the object through its pointer, and moves the pointer when the price changes. */
    method ModifyOrder(id: string, newPrice: real, newQuantity: int)
      requires Valid()
      modifies this, orderPool
      ensures Valid() && orderPool.capacity == old(orderPool.capacity)
      ensures Contents() == After(old(Contents()), Modify(id, newPrice, newQuantity))
      ensures Contents() == if id != "" && newQuantity > 0 && newPrice > 0.0 && id in old(Contents())
                            then old(Contents())[id := Order(id, newPrice, newQuantity, old(Contents())[id].isBuy)] else old(Contents())
      ensures orderLookup == old(orderLookup)
    {
      hide Shared;
      SameSize(orderLevels, orderLookup, orderPool.slots, orderPool.freeIndices);
      if id == "" || newQuantity <= 0 || newPrice <= 0.0 { return; }
      if id !in orderLookup { return; }
      var orderToModify := orderLookup[id];
      PointerFacts(id);
      var oldPrice := orderPool.slots[orderToModify].price;
      ModifyKeeps(orderLevels, orderLookup, orderPool.slots, orderPool.freeIndices, id,
                  orderPool.slots[orderToModify].(price := newPrice, quantity := newQuantity));
      if oldPrice != newPrice {
        orderLevels := Take(orderLevels, oldPrice, id);
        orderPool.slots := orderPool.slots[orderToModify := orderPool.slots[orderToModify].(price := newPrice)];
        orderLevels := Put(orderLevels, newPrice, id, orderToModify);
      }
      orderPool.slots := orderPool.slots[orderToModify := orderPool.slots[orderToModify].(quantity := newQuantity)];
      assert orderPool.slots == old(orderPool.slots)[orderToModify := old(orderPool.slots)[orderToModify].(price := newPrice, quantity := newQuantity)];
    }

    /** `deleteOrder`: takes the pointer out of both maps and gives the slot back. */
    method DeleteOrder(id: string)
      requires Valid()
      modifies this, orderPool
      ensures Valid() && orderPool.capacity == old(orderPool.capacity)
      ensures Contents() == After(old(Contents()), Delete(id)) == old(Contents()) - {id}
    {
      hide Shared;
      SameSize(orderLevels, orderLookup, orderPool.slots, orderPool.freeIndices);
      if id == "" { NoEmptyId(); return; }
      if id !in orderLookup { return; }
      var orderToDelete := orderLookup[id];
      PointerFacts(id);
      DeleteKeeps(orderLevels, orderLookup, orderPool.slots, orderPool.freeIndices, id);
      orderLevels := Take(orderLevels, orderPool.slots[orderToDelete].price, id);
      orderPool.Deallocate(orderToDelete);
      orderLookup := orderLookup - {id};
      activeOrderCount := activeOrderCount - 1;
    }

    /** A pointer in the lookup is a live slot that holds the order of that id. */
    lemma PointerFacts(id: string)
      requires Valid() && id in orderLookup
      ensures orderLookup[id] < |orderPool.slots| && orderLookup[id] !in orderPool.freeIndices
      ensures id in Contents() && Contents()[id] == orderPool.slots[orderLookup[id]] && Contents()[id].id == id
    {
    }

    lemma NoEmptyId()
      requires Valid()
      ensures "" !in Contents()
    {
    }

    method GetOrder(id: string) returns (r: Option<Order>)
      requires Valid()
      ensures r == if id in Contents() then Some(Contents()[id]) else None
    {
      SameSize(orderLevels, orderLookup, orderPool.slots, orderPool.freeIndices);
      if id in orderLookup { PointerFacts(id); }
      r := if id in orderLookup then Some(orderPool.slots[orderLookup[id]]) else None;
    }

    method GetAllActivePrices() returns (prices: seq<real>)
      requires Valid()
      ensures IsPriceList(Contents(), prices)
    {
      prices := AscendingKeys(orderLevels);
    }

    /** The level is a map of pointers; the caller reads the orders behind them. */
    method GetOrdersAtPrice(price: real) returns (level: Option<map<string, nat>>)
      requires Valid()
      ensures level == None <==> OrdersAt(Contents(), price) == map[]
      ensures level.Some? ==> Deref(level.value, orderPool.slots) == OrdersAt(Contents(), price)
    {
      SharedLevel(orderLevels, orderLookup, orderPool.slots, orderPool.freeIndices, price);
      level := if price in orderLevels then Some(orderLevels[price]) else None;
    }

    method GetBestLevel(isBuy: bool) returns (r: Option<(real, map<string, nat>)>)
      requires Valid()
      ensures IsBestLevel(Contents(), isBuy, if r.None? then None else Some((r.value.0, Deref(r.value.1, orderPool.slots))))
    {
      var prices := AscendingKeys(orderLevels);
      var orders := map p | p in orderLevels :: Deref(orderLevels[p], orderPool.slots);
      forall p | p in orderLevels ensures orders[p] == OrdersAt(Contents(), p) {
        SharedLevel(orderLevels, orderLookup, orderPool.slots, orderPool.freeIndices, p);
      }
      var p := Scan(Contents(), orders, isBuy, prices);
      r := None;
      if p.Some? {
        r := Some((p.value, orderLevels[p.value]));
      }
    }
  }
}
