/** Price-time matching of two sorted sides, as values, and what it achieves economically. */
module Matching {
  /** One resting order as the matching loop sees it; `ptr` is its block. */
  datatype Resting = Resting(price: real, ptr: nat, qty: int)

  datatype Cleared = Cleared(bids: seq<Resting>, asks: seq<Resting>, executed: int)

  /** Price `p` is strictly better than `q` on the given side. */
  predicate Better(isBuy: bool, p: real, q: real) {
    if isBuy then p > q else p < q
  }

  ghost predicate Sorted(isBuy: bool, side: seq<Resting>) {
    forall i, j | 0 <= i < j < |side| :: !Better(isBuy, side[j].price, side[i].price)
  }

  ghost predicate Positive(side: seq<Resting>) {
    forall i | 0 <= i < |side| :: side[i].qty > 0
  }

  function PriceOf(r: Resting): real { r.price }

  /** A new element goes behind the elements that are at least as good. */
  function Placed<E>(price: E -> real, isBuy: bool, side: seq<E>, e: E): seq<E> {
    if side == [] || Better(isBuy, price(e), price(side[0])) then [e] + side
    else [side[0]] + Placed(price, isBuy, side[1..], e)
  }

  /** `side'` is `side` with `e` at position `k`: behind all elements it is not better than, in front of all others. */
  predicate StandsAt<E(==)>(price: E -> real, isBuy: bool, side: seq<E>, e: E, side': seq<E>, k: nat) {
    && k <= |side| && side' == side[..k] + [e] + side[k..]
    && (forall i | 0 <= i < k :: !Better(isBuy, price(e), price(side[i])))
    && (forall i | k <= i < |side| :: Better(isBuy, price(e), price(side[i])))
  }

  /** `e` has joined the side behind its equals: price priority first, then time priority. */
  ghost predicate HasJoined<E>(price: E -> real, isBuy: bool, side: seq<E>, e: E, side': seq<E>) {
    exists k :: 0 <= k <= |side| && StandsAt(price, isBuy, side, e, side', k)
  }

  ghost predicate InPriceOrder<E>(price: E -> real, isBuy: bool, side: seq<E>) {
    forall i, j | 0 <= i < j < |side| :: !Better(isBuy, price(side[j]), price(side[i]))
  }

  lemma {:induction false} PlacedStands<E>(price: E -> real, isBuy: bool, side: seq<E>, e: E)
    requires InPriceOrder(price, isBuy, side)
    ensures HasJoined(price, isBuy, side, e, Placed(price, isBuy, side, e))
  {
    var side' := Placed(price, isBuy, side, e);
    if side == [] || Better(isBuy, price(e), price(side[0])) {
      assert side' == side[..0] + [e] + side[0..];
      assert StandsAt(price, isBuy, side, e, side', 0);
    } else {
      PlacedStands(price, isBuy, side[1..], e);
      var k :| 0 <= k <= |side[1..]| && StandsAt(price, isBuy, side[1..], e, Placed(price, isBuy, side[1..], e), k);
      assert side' == side[..k + 1] + [e] + side[k + 1..];
      assert forall i | 1 <= i < |side| :: side[i] == side[1..][i - 1];
      assert StandsAt(price, isBuy, side, e, side', k + 1);
    }
  }

  predicate Crossed(bids: seq<Resting>, asks: seq<Resting>) {
    bids != [] && asks != [] && bids[0].price >= asks[0].price
  }

  function Least(a: int, b: int): int {
    if b < a then b else a
  }

  /** The first order after a trade of `q`; it leaves the side when nothing is left of it. */
  function Hit(side: seq<Resting>, q: int): (r: seq<Resting>)
    requires side != []
    ensures side[0].qty <= q ==> r == side[1..]
    ensures side[0].qty > q ==> |r| == |side|
  {
    if side[0].qty - q <= 0 then side[1..] else [side[0].(qty := side[0].qty - q)] + side[1..]
  }

  /** The matching loop: the two best orders trade while they cross. */
  function Match(bids: seq<Resting>, asks: seq<Resting>): Cleared
    decreases |bids| + |asks|
  {
    if !Crossed(bids, asks) then Cleared(bids, asks, 0)
    else
      var q := Least(bids[0].qty, asks[0].qty);
      var rest := Match(Hit(bids, q), Hit(asks, q));
      rest.(executed := q + rest.executed)
  }

  // ---------------------------------------------------------------- closed form

  function Total(side: seq<Resting>): int {
    if side == [] then 0 else side[0].qty + Total(side[1..])
  }

  /** Takes `n` units from the front: whole orders first, then part of the first survivor. */
  function Consume(side: seq<Resting>, n: int): seq<Resting> {
    if side == [] || n <= 0 then side
    else if side[0].qty <= n then Consume(side[1..], n - side[0].qty)
    else [side[0].(qty := side[0].qty - n)] + side[1..]
  }

  /** A trade with the first order, then the rest: the same as taking both amounts at once. */
  lemma HitThenConsume(side: seq<Resting>, q: int, n: int)
    requires side != [] && Positive(side) && 0 < q <= side[0].qty && 0 <= n
    ensures Consume(Hit(side, q), n) == Consume(side, q + n)
    ensures Positive(Hit(side, q)) && Total(Hit(side, q)) == Total(side) - q
  {
    if q < side[0].qty {
      var hit := Hit(side, q);
      assert hit[1..] == side[1..];
      if n >= side[0].qty - q { assert Consume(hit, n) == Consume(side[1..], n - (side[0].qty - q)); }
    }
  }

  /** Price-time priority in closed form: each side loses exactly the executed quantity, from its front;
      what is left does not cross. */
  lemma {:induction false} MatchConsumes(bids: seq<Resting>, asks: seq<Resting>)
    requires Positive(bids) && Positive(asks)
    ensures var m := Match(bids, asks);
            && m.bids == Consume(bids, m.executed) && m.asks == Consume(asks, m.executed)
            && 0 <= m.executed && !Crossed(m.bids, m.asks)
            && Positive(m.bids) && Total(m.bids) == Total(bids) - m.executed
            && Positive(m.asks) && Total(m.asks) == Total(asks) - m.executed
    decreases |bids| + |asks|
  {
    if Crossed(bids, asks) {
      var q := Least(bids[0].qty, asks[0].qty);
      MatchConsumes(Hit(bids, q), Hit(asks, q));
      var n := Match(Hit(bids, q), Hit(asks, q)).executed;
      HitThenConsume(bids, q, n);
      HitThenConsume(asks, q, n);
    }
  }

  /** What `Consume` leaves: the side with a prefix removed and at most its first survivor reduced. */
  lemma {:induction false} ConsumeShape(side: seq<Resting>, n: int) returns (k: nat)
    requires Positive(side) && 0 <= n <= Total(side)
    ensures k <= |side| && Total(side[..k]) <= n
    ensures k < |side| ==> n < Total(side[..k]) + side[k].qty
    ensures Consume(side, n) == if k == |side| then [] else [side[k].(qty := side[k].qty - (n - Total(side[..k])))] + side[k + 1..]
    ensures Positive(Consume(side, n)) && Total(Consume(side, n)) == Total(side) - n
  {
    if side == [] || n < side[0].qty {
      k := 0;
      if side != [] && n == 0 { assert side == [side[0]] + side[1..]; }
    } else {
      var j := ConsumeShape(side[1..], n - side[0].qty);
      k := j + 1;
      assert side[..k][1..] == side[1..][..j];
    }
  }

  lemma {:induction false} ConsumeSorted(isBuy: bool, side: seq<Resting>, n: int)
    requires Sorted(isBuy, side)
    ensures Sorted(isBuy, Consume(side, n))
  {
    if side != [] && n > 0 && side[0].qty <= n { ConsumeSorted(isBuy, side[1..], n - side[0].qty); }
  }

  ghost predicate DistinctPointers(side: seq<Resting>) {
    forall i, j | 0 <= i < j < |side| :: side[i].ptr != side[j].ptr
  }

  /** Of two orders of a side, the one behind is touched only when nothing is left of the one in front. */
  lemma {:induction false} ConsumedInOrder(side: seq<Resting>, n: int, i: nat, j: nat)
    requires i < j < |side| && DistinctPointers(side)
    ensures side[j] in Consume(side, n) || forall r | r in Consume(side, n) :: r.ptr != side[i].ptr
  {
    var tail := side[1..];
    if n > 0 {
      if side[0].qty <= n {
        if i == 0 {
          ConsumedFrom(tail, n - side[0].qty);
          forall r | r in Consume(tail, n - side[0].qty) ensures r.ptr != side[0].ptr {
            var k :| 0 <= k < |tail| && tail[k].ptr == r.ptr;
            assert tail[k] == side[k + 1];
          }
        } else {
          assert forall k | 0 <= k < |tail| :: tail[k] == side[k + 1];
          ConsumedInOrder(tail, n - side[0].qty, i - 1, j - 1);
        }
      } else {
        assert Consume(side, n)[j] == side[j];
      }
    }
  }

  lemma {:induction false} ConsumedFrom(side: seq<Resting>, n: int)
    ensures forall r | r in Consume(side, n) :: exists k :: 0 <= k < |side| && side[k].ptr == r.ptr
  {
    if side != [] && n > 0 && side[0].qty <= n {
      ConsumedFrom(side[1..], n - side[0].qty);
      forall r | r in Consume(side, n) ensures exists k :: 0 <= k < |side| && side[k].ptr == r.ptr {
        var k :| 0 <= k < |side[1..]| && side[1..][k].ptr == r.ptr;
        assert side[k + 1].ptr == r.ptr;
      }
    } else {
      forall r | r in Consume(side, n) ensures exists k :: 0 <= k < |side| && side[k].ptr == r.ptr {
        var k :| 0 <= k < |Consume(side, n)| && Consume(side, n)[k] == r;
        assert side[k].ptr == r.ptr;
      }
    }
  }

  lemma {:induction false} PlacedSorted(isBuy: bool, side: seq<Resting>, e: Resting)
    requires Sorted(isBuy, side)
    ensures Sorted(isBuy, Placed(PriceOf, isBuy, side, e))
  {
    var side' := Placed(PriceOf, isBuy, side, e);
    if side == [] || Better(isBuy, e.price, side[0].price) {
      assert side' == [e] + side;
    } else {
      PlacedSorted(isBuy, side[1..], e);
      PlacedElements(isBuy, side[1..], e);
      assert side'[1..] == Placed(PriceOf, isBuy, side[1..], e);
      forall i, j | 0 <= i < j < |side'| ensures !Better(isBuy, side'[j].price, side'[i].price) {
        assert side'[j] == side'[1..][j - 1] && side'[1..][j - 1] in side'[1..];
        assert i > 0 ==> side'[i] == side'[1..][i - 1];
      }
    }
  }

  lemma {:induction false} PlacedElements(isBuy: bool, side: seq<Resting>, e: Resting)
    ensures forall x :: x in Placed(PriceOf, isBuy, side, e) ==> x == e || x in side
  {
    if side != [] && !Better(isBuy, e.price, side[0].price) { PlacedElements(isBuy, side[1..], e); }
  }

  // ---------------------------------------------------------------- cleared volume

  /** Quantity a side offers at price `p` or better for the other side. */
  function Depth(isBuy: bool, side: seq<Resting>, p: real): int {
    if side == [] then 0
    else (if Better(isBuy, p, side[0].price) then 0 else side[0].qty) + Depth(isBuy, side[1..], p)
  }

  function VolumeAt(bids: seq<Resting>, asks: seq<Resting>, p: real): int {
    Least(Depth(true, bids, p), Depth(false, asks, p))
  }

  lemma {:induction false} DepthNonnegative(isBuy: bool, side: seq<Resting>, p: real)
    requires Positive(side)
    ensures 0 <= Depth(isBuy, side, p)
    ensures Sorted(isBuy, side) && side != [] && Better(isBuy, p, side[0].price) ==> Depth(isBuy, side, p) == 0
  {
    if side != [] {
      assert side == [side[0]] + side[1..];
      DepthNonnegative(isBuy, side[1..], p);
      if Sorted(isBuy, side) && Better(isBuy, p, side[0].price) { NothingBetter(isBuy, side, p); }
    }
  }

  lemma {:induction false} NothingBetter(isBuy: bool, side: seq<Resting>, p: real)
    requires forall i | 0 <= i < |side| :: Better(isBuy, p, side[i].price)
    ensures Depth(isBuy, side, p) == 0
  {
    if side != [] { NothingBetter(isBuy, side[1..], p); }
  }

  lemma DepthAfterHit(isBuy: bool, side: seq<Resting>, q: int, p: real)
    requires side != [] && 0 < q <= side[0].qty
    ensures Depth(isBuy, Hit(side, q), p) == Depth(isBuy, side, p) - if Better(isBuy, p, side[0].price) then 0 else q
  {
    if q < side[0].qty { assert Hit(side, q)[1..] == side[1..]; }
  }

  /** No single price could clear more than the loop executes. */
  lemma {:induction false} NoPriceClearsMore(bids: seq<Resting>, asks: seq<Resting>, p: real)
    requires Positive(bids) && Positive(asks) && Sorted(true, bids) && Sorted(false, asks)
    ensures VolumeAt(bids, asks, p) <= Match(bids, asks).executed
    decreases |bids| + |asks|
  {
    DepthNonnegative(true, bids, p);
    DepthNonnegative(false, asks, p);
    if Crossed(bids, asks) {
      var q := Least(bids[0].qty, asks[0].qty);
      HitThenConsume(bids, q, 0);
      HitThenConsume(asks, q, 0);
      DepthAfterHit(true, bids, q, p);
      DepthAfterHit(false, asks, q, p);
      NoPriceClearsMore(Hit(bids, q), Hit(asks, q), p);
    }
  }

  /** Some price clears what the loop executes. */
  lemma {:induction false} SomePriceClears(bids: seq<Resting>, asks: seq<Resting>) returns (p: real)
    requires Positive(bids) && Positive(asks) && Sorted(true, bids) && Sorted(false, asks)
    ensures Match(bids, asks).executed <= VolumeAt(bids, asks, p)
    decreases |bids| + |asks|
  {
    p := if bids != [] then bids[0].price else 0.0;
    if Crossed(bids, asks) {
      var q := Least(bids[0].qty, asks[0].qty);
      HitThenConsume(bids, q, 0);
      HitThenConsume(asks, q, 0);
      var p' := SomePriceClears(Hit(bids, q), Hit(asks, q));
      if Match(Hit(bids, q), Hit(asks, q)).executed > 0 {
        p := p';
        BestBounds(true, Hit(bids, q), p);
        BestBounds(false, Hit(asks, q), p);
      } else {
        MatchConsumes(Hit(bids, q), Hit(asks, q));
        DepthNonnegative(true, Hit(bids, q), p);
        DepthNonnegative(false, Hit(asks, q), p);
      }
      DepthAfterHit(true, bids, q, p);
      DepthAfterHit(false, asks, q, p);
    } else {
      DepthNonnegative(true, bids, p);
      DepthNonnegative(false, asks, p);
    }
  }

  /** Depth at a price means the best order is at least that good. */
  lemma BestBounds(isBuy: bool, side: seq<Resting>, p: real)
    requires Positive(side) && Sorted(isBuy, side) && Depth(isBuy, side, p) > 0
    ensures side != [] && !Better(isBuy, p, side[0].price)
  {
    DepthNonnegative(isBuy, side, p);
  }

  /** The largest quantity that any single price would clear. */
  ghost predicate ClearingVolume(bids: seq<Resting>, asks: seq<Resting>, n: int) {
    && (forall p: real :: VolumeAt(bids, asks, p) <= n)
    && (exists p: real :: VolumeAt(bids, asks, p) == n)
  }

  /** The executed quantity is the clearing volume of the book before matching. */
  lemma ExecutedIsClearingVolume(bids: seq<Resting>, asks: seq<Resting>)
    requires Positive(bids) && Positive(asks) && Sorted(true, bids) && Sorted(false, asks)
    ensures ClearingVolume(bids, asks, Match(bids, asks).executed)
  {
    forall p: real ensures VolumeAt(bids, asks, p) <= Match(bids, asks).executed {
      NoPriceClearsMore(bids, asks, p);
    }
    var p := SomePriceClears(bids, asks);
    assert VolumeAt(bids, asks, p) == Match(bids, asks).executed;
  }

  /** The whole outcome of a matching round in two facts: the quantity is the clearing volume, and it comes
      off the front of both sides. */
  ghost predicate ClearsAt(bids: seq<Resting>, asks: seq<Resting>, n: int) {
    ClearingVolume(bids, asks, n) && Match(bids, asks) == Cleared(Consume(bids, n), Consume(asks, n), n)
  }

  lemma MatchClears(bids: seq<Resting>, asks: seq<Resting>)
    requires Positive(bids) && Positive(asks) && Sorted(true, bids) && Sorted(false, asks)
    ensures ClearsAt(bids, asks, Match(bids, asks).executed)
  {
    MatchConsumes(bids, asks);
    ExecutedIsClearingVolume(bids, asks);
  }
}
