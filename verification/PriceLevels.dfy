/** What the two limit order books have in common: the orders they hold, the effect of an operation on them,
    the grouping of orders into price levels, and what the answers to the queries mean. */
module PriceLevels {
  import opened Wrappers

  datatype Order = Order(id: string, price: real, quantity: int, isBuy: bool)

  type Book = map<string, Order>

  datatype Op = Add(id: string, price: real, quantity: int, isBuy: bool) | Modify(id: string, price: real, quantity: int) | Delete(id: string)

  /** Both books refuse an empty id and a price or quantity that is not positive. */
  predicate Acceptable(id: string, price: real, quantity: int) {
    id != "" && quantity > 0 && price > 0.0
  }

  predicate Accepts(b: Book, op: Op) {
    match op
    case Add(id, price, quantity, _) => Acceptable(id, price, quantity) && id !in b
    case Modify(id, price, quantity) => Acceptable(id, price, quantity) && id in b
    case Delete(id) => id in b
  }

  function After(b: Book, op: Op): Book {
    if !Accepts(b, op) then b
    else
      match op
      case Add(id, price, quantity, isBuy) => b[id := Order(id, price, quantity, isBuy)]
      case Modify(id, price, quantity) => b[id := b[id].(price := price, quantity := quantity)]
      case Delete(id) => b - {id}
  }

  function AfterAll(ops: seq<Op>): Book {
    if ops == [] then map[] else After(AfterAll(ops[..|ops| - 1]), ops[|ops| - 1])
  }

  predicate WellFormed(b: Book) {
    forall id | id in b :: b[id].id == id && Acceptable(id, b[id].price, b[id].quantity)
  }

  // ---------------------------------------------------------------- grouping by price

  /** The entries of `lookup` grouped by price: no level is empty, and each entry is in the level of its price only. */
  function Levels<V>(lookup: map<string, V>, prices: map<string, real>): map<real, map<string, V>>
    requires lookup.Keys == prices.Keys
  {
    map p | p in prices.Values :: Level(lookup, prices, p)
  }

  function Level<V>(lookup: map<string, V>, prices: map<string, real>, p: real): map<string, V>
    requires lookup.Keys == prices.Keys
  {
    map id | id in lookup && prices[id] == p :: lookup[id]
  }

  /** `orderLevels[price][id] = v` */
  function Put<V>(levels: map<real, map<string, V>>, price: real, id: string, v: V): map<real, map<string, V>> {
    levels[price := (if price in levels then levels[price] else map[])[id := v]]
  }

  /** Erases the id from its level, and the level when that leaves it empty. */
  function Take<V>(levels: map<real, map<string, V>>, price: real, id: string): map<real, map<string, V>>
    requires price in levels
  {
    if (levels[price] - {id}).Keys == {} then levels - {price} else levels[price := levels[price] - {id}]
  }

  lemma PutGroups<V>(lookup: map<string, V>, prices: map<string, real>, price: real, id: string, v: V)
    requires lookup.Keys == prices.Keys && id !in lookup
    ensures Put(Levels(lookup, prices), price, id, v) == Levels(lookup[id := v], prices[id := price])
  {
    var lookup', prices' := lookup[id := v], prices[id := price];
    assert prices'.Values == prices.Values + {price} by {
      assert id in prices';
      forall p | p in prices.Values ensures p in prices'.Values {
        var k :| k in prices && prices[k] == p;
        assert k in prices' && prices'[k] == p;
      }
    }
    forall p | p in prices.Values && p != price ensures Level(lookup', prices', p) == Level(lookup, prices, p) {
    }
    assert Level(lookup', prices', price) == Level(lookup, prices, price)[id := v];
    if price !in prices.Values { assert Level(lookup, prices, price) == map[]; }
  }

  lemma TakeGroups<V>(lookup: map<string, V>, prices: map<string, real>, id: string)
    requires lookup.Keys == prices.Keys && id in lookup
    ensures prices[id] in Levels(lookup, prices)
    ensures Take(Levels(lookup, prices), prices[id], id) == Levels(lookup - {id}, prices - {id})
  {
    var price, lookup', prices' := prices[id], lookup - {id}, prices - {id};
    assert Level(lookup', prices', price) == Level(lookup, prices, price) - {id};
    forall p | p in prices.Values && p != price ensures p in prices'.Values && Level(lookup', prices', p) == Level(lookup, prices, p) {
      var k :| k in prices && prices[k] == p;
      assert k in prices' && prices'[k] == p;
    }
    if price in prices'.Values {
      var k :| k in prices' && prices'[k] == price;
      assert k in Level(lookup', prices', price);
    } else {
      assert Level(lookup', prices', price) == map[];
    }
  }

  /** Moving an entry from its level to another. */
  lemma MoveGroups<V>(lookup: map<string, V>, prices: map<string, real>, id: string, price: real, v: V)
    requires lookup.Keys == prices.Keys && id in lookup
    ensures prices[id] in Levels(lookup, prices)
    ensures Put(Take(Levels(lookup, prices), prices[id], id), price, id, v) == Levels(lookup[id := v], prices[id := price])
  {
    TakeGroups(lookup, prices, id);
    PutGroups(lookup - {id}, prices - {id}, price, id, v);
    assert (lookup - {id})[id := v] == lookup[id := v];
    assert (prices - {id})[id := price] == prices[id := price];
  }

  // ---------------------------------------------------------------- answers

  function PricesOf(b: Book): map<string, real> {
    map id | id in b :: b[id].price
  }

  function OrdersAt(b: Book, p: real): Book {
    map id | id in b && b[id].price == p :: b[id]
  }

  predicate Ascending(s: seq<real>) {
    forall i, j | 0 <= i < j < |s| :: s[i] < s[j]
  }

  /** The active prices, in ascending order. */
  ghost predicate IsPriceList(b: Book, prices: seq<real>) {
    Ascending(prices) && forall p :: p in prices <==> p in PricesOf(b).Values
  }

  /** The best level of a side: the best price at which that side has an order, and all orders at that price. */
  ghost predicate IsBestLevel(b: Book, isBuy: bool, r: Option<(real, Book)>) {
    match r
    case None => forall id | id in b :: b[id].isBuy != isBuy
    case Some((p, level)) =>
      && level == OrdersAt(b, p)
      && (exists id :: id in b && b[id].isBuy == isBuy && b[id].price == p)
      && (forall id | id in b && b[id].isBuy == isBuy :: if isBuy then b[id].price <= p else p <= b[id].price)
  }

  /** A book determines its price list. */
  lemma {:induction false} PriceListUnique(b: Book, s: seq<real>, t: seq<real>)
    requires IsPriceList(b, s) && IsPriceList(b, t)
    ensures s == t
  {
    AscendingUnique(s, t);
  }

  lemma {:induction false} AscendingUnique(s: seq<real>, t: seq<real>)
    requires Ascending(s) && Ascending(t) && forall p :: p in s <==> p in t
    ensures s == t
  {
    assert forall i | 0 <= i < |t| :: t[i] in t;
    assert forall i | 0 <= i < |s| :: s[i] in s;
    if s != [] {
      assert s[0] in t && t[0] in s;
      assert s[0] == t[0];
      forall p ensures p in s[1..] <==> p in t[1..] {
        assert p in s[1..] <==> p in s && p != s[0];
        assert p in t[1..] <==> p in t && p != t[0];
      }
      AscendingUnique(s[1..], t[1..]);
    }
  }

  /** A book determines its best levels. */
  lemma BestLevelUnique(b: Book, isBuy: bool, r: Option<(real, Book)>, s: Option<(real, Book)>)
    requires IsBestLevel(b, isBuy, r) && IsBestLevel(b, isBuy, s)
    ensures r == s
  {
  }
}
