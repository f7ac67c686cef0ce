/** The binary heap behind the order priority queue, for any comparison that is a strict weak order. */
module PriorityQueues {
  import opened Wrappers

  /** What `std::less` and the comparators must be: irreflexive, transitive, and with a transitive "neither is less". */
  ghost predicate StrictWeakOrder<T(!new)>(less: (T, T) -> bool) {
    && (forall x :: !less(x, x))
    && (forall x, y, z :: less(x, y) && less(y, z) ==> less(x, z))
    && (forall x, y, z :: Tied(less, x, y) && Tied(less, y, z) ==> Tied(less, x, z))
  }

  predicate Tied<T>(less: (T, T) -> bool, x: T, y: T) {
    !less(x, y) && !less(y, x)
  }

  /** "Not below" is a total preorder. */
  lemma NotBelow<T(!new)>(less: (T, T) -> bool, x: T, y: T, z: T)
    requires StrictWeakOrder(less)
    ensures less(x, y) ==> !less(y, x)
    ensures !less(x, y) && !less(y, z) ==> !less(x, z)
  {
    assert less(y, x) && less(x, z) ==> less(y, z);
    assert less(x, z) && less(z, y) ==> less(x, y);
    assert Tied(less, x, y) && Tied(less, y, z) ==> Tied(less, x, z);
  }

  datatype Order = Order(price: real, timestamp: int, orderId: string)

  predicate ByPrice(a: Order, b: Order) {
    a.price < b.price
  }

  predicate ByPriceDescending(a: Order, b: Order) {
    a.price > b.price
  }

  /** The comparators the queue is instantiated with look at the price only, so two different orders may be tied. */
  lemma ComparatorsAreStrictWeakOrders()
    ensures StrictWeakOrder(ByPrice) && StrictWeakOrder(ByPriceDescending)
    ensures forall a: Order, b: Order :: (Tied(ByPrice, a, b) <==> a.price == b.price) && (Tied(ByPriceDescending, a, b) <==> a.price == b.price)
  {
    forall x: Order, y: Order, z: Order | Tied(ByPrice, x, y) && Tied(ByPrice, y, z) ensures Tied(ByPrice, x, z) {
    }
    forall x: Order, y: Order, z: Order | Tied(ByPriceDescending, x, y) && Tied(ByPriceDescending, y, z) ensures Tied(ByPriceDescending, x, z) {
    }
  }

  function Parent(i: nat): nat
    requires i > 0
  {
    (i - 1) / 2
  }

  function LeftChild(i: nat): nat { 2 * i + 1 }

  function RightChild(i: nat): nat { 2 * i + 2 }

  /** No element but possibly the one at `except` is above its parent. */
  ghost predicate HeapExcept<T>(less: (T, T) -> bool, h: seq<T>, except: nat) {
    forall i | 0 < i < |h| && i != except :: !less(h[Parent(i)], h[i])
  }

  ghost predicate IsHeap<T>(less: (T, T) -> bool, h: seq<T>) {
    HeapExcept(less, h, 0)
  }

  /** No element is above its parent, except possibly children of `hole`. */
  ghost predicate HeapBelow<T>(less: (T, T) -> bool, h: seq<T>, hole: nat) {
    forall i | 0 < i < |h| && Parent(i) != hole :: !less(h[Parent(i)], h[i])
  }

  /** The children of `i` are not above its parent. */
  ghost predicate Bridged<T>(less: (T, T) -> bool, h: seq<T>, i: nat) {
    0 < i < |h| ==> forall c | 0 < c < |h| && Parent(c) == i :: !less(h[Parent(i)], h[c])
  }

  /** In a heap nothing is above the root. */
  lemma {:induction false} RootIsMaximum<T(!new)>(less: (T, T) -> bool, h: seq<T>, i: nat)
    requires StrictWeakOrder(less) && IsHeap(less, h) && i < |h|
    ensures !less(h[0], h[i])
    decreases i
  {
    if i > 0 {
      RootIsMaximum(less, h, Parent(i));
      NotBelow(less, h[0], h[Parent(i)], h[i]);
    }
  }

  function Swap<T>(h: seq<T>, i: nat, j: nat): seq<T>
    requires i < |h| && j < |h|
  {
    h[i := h[j]][j := h[i]]
  }

  lemma SwapPermutes<T>(h: seq<T>, i: nat, j: nat)
    requires i < |h| && j < |h|
    ensures multiset(Swap(h, i, j)) == multiset(h)
  {
  }

  /** One step of the sift towards the root. */
  lemma SiftUp<T(!new)>(less: (T, T) -> bool, h: seq<T>, i: nat)
    requires StrictWeakOrder(less) && 0 < i < |h| && HeapExcept(less, h, i) && Bridged(less, h, i)
    requires less(h[Parent(i)], h[i])
    ensures HeapExcept(less, Swap(h, Parent(i), i), Parent(i)) && Bridged(less, Swap(h, Parent(i), i), Parent(i))
  {
    var p := Parent(i);
    forall c | 0 < c < |h| && Parent(c) == p && c != i ensures !less(h[i], h[c]) && (p > 0 ==> !less(h[Parent(p)], h[c])) {
      NotBelow(less, h[i], h[p], h[i]);
      NotBelow(less, h[i], h[p], h[c]);
      if p > 0 { NotBelow(less, h[Parent(p)], h[p], h[c]); }
    }
    NotBelow(less, h[p], h[i], h[p]);
  }

  /** One step of the sift away from the root, with the greater child. */
  lemma SiftDown<T(!new)>(less: (T, T) -> bool, h: seq<T>, i: nat, m: nat)
    requires StrictWeakOrder(less) && i < m < |h| && Parent(m) == i && HeapBelow(less, h, i) && Bridged(less, h, i)
    requires forall c | 0 < c < |h| && Parent(c) == i :: !less(h[m], h[c])
    requires less(h[i], h[m])
    ensures HeapBelow(less, Swap(h, i, m), m) && Bridged(less, Swap(h, i, m), m)
  {
    NotBelow(less, h[i], h[m], h[i]);
  }

  class OrderPriorityQueue<T(!new)> {
    const less: (T, T) -> bool
    var heap: seq<T>

    ghost predicate Valid()
      reads this
    {
      StrictWeakOrder(less) && IsHeap(less, heap)
    }

    constructor (less: (T, T) -> bool)
      requires StrictWeakOrder(less)
      ensures Valid() && heap == [] && this.less == less
    {
      this.less := less;
      heap := [];
    }

    method Push(value: T)
      requires Valid()
      modifies this
      ensures Valid() && multiset(heap) == multiset(old(heap)) + multiset{value}
    {
      heap := heap + [value];
      HeapifyUp(|heap| - 1);
    }

    /** The error is raised exactly when the queue is empty; otherwise the element `Top` shows leaves. */
    method Pop() returns (raised: bool)
      requires Valid()
      modifies this
      ensures Valid() && (raised <==> old(heap) == [])
      ensures raised ==> heap == []
      ensures !raised ==> multiset(old(heap)) == multiset(heap) + multiset{old(heap)[0]}
    {
      if heap == [] { return true; }
      ghost var was := heap;
      var last := heap[|heap| - 1];
      assert was == was[..|was| - 1] + [last];
      heap := heap[0 := last];
      heap := heap[..|heap| - 1];
      if heap != [] {
        assert was == [was[0]] + was[1..|was| - 1] + [last];
        assert heap == [last] + was[1..|was| - 1];
        HeapifyDown(0);
      }
      raised := false;
    }

    /** Nothing in the queue is above the element shown. */
    method Top() returns (top: Option<T>)
      requires Valid()
      ensures top == None <==> heap == []
      ensures top.Some? ==> top.value == heap[0] && forall x | x in heap :: !less(top.value, x)
    {
      if heap == [] { return None; }
      forall x | x in heap ensures !less(heap[0], x) {
        var i :| 0 <= i < |heap| && heap[i] == x;
        RootIsMaximum(less, heap, i);
      }
      top := Some(heap[0]);
    }

    method HeapifyUp(start: nat)
      requires StrictWeakOrder(less) && start < |heap| && HeapExcept(less, heap, start) && Bridged(less, heap, start)
      modifies this
      ensures IsHeap(less, heap) && multiset(heap) == multiset(old(heap))
    {
      var index: nat := start;
      while index > 0
        invariant index < |heap| && HeapExcept(less, heap, index) && Bridged(less, heap, index)
        invariant multiset(heap) == multiset(old(heap))
      {
        var parentIdx := Parent(index);
        if !less(heap[parentIdx], heap[index]) { break; }
        SiftUp(less, heap, index);
        SwapPermutes(heap, parentIdx, index);
        heap := Swap(heap, parentIdx, index);
        index := parentIdx;
      }
    }

    method HeapifyDown(start: nat)
      requires StrictWeakOrder(less) && start < |heap| && HeapBelow(less, heap, start) && Bridged(less, heap, start)
      modifies this
      ensures IsHeap(less, heap) && multiset(heap) == multiset(old(heap))
    {
      var index: nat := start;
      while LeftChild(index) < |heap|
        invariant index < |heap| && HeapBelow(less, heap, index) && Bridged(less, heap, index)
        invariant multiset(heap) == multiset(old(heap))
        decreases |heap| - index
      {
        var maxChild := LeftChild(index);
        if RightChild(index) < |heap| && less(heap[maxChild], heap[RightChild(index)]) {
          maxChild := RightChild(index);
        }
        forall c | 0 < c < |heap| && Parent(c) == index ensures !less(heap[maxChild], heap[c]) {
          assert c == LeftChild(index) || c == RightChild(index);
          NotBelow(less, heap[LeftChild(index)], heap[maxChild], heap[c]);
        }
        if !less(heap[index], heap[maxChild]) {
          forall c | 0 < c < |heap| && Parent(c) == index ensures !less(heap[index], heap[c]) {
            NotBelow(less, heap[index], heap[maxChild], heap[c]);
          }
          break;
        }
        SiftDown(less, heap, index, maxChild);
        SwapPermutes(heap, index, maxChild);
        heap := Swap(heap, index, maxChild);
        index := maxChild;
      }
    }
  }

  ghost predicate NonIncreasing<T>(less: (T, T) -> bool, s: seq<T>) {
    forall i, j | 0 <= i < j < |s| :: !less(s[i], s[j])
  }

  lemma OneLess<T>(before: seq<T>, after: seq<T>, x: T)
    requires multiset(before) == multiset(after) + multiset{x}
    ensures |after| + 1 == |before| && forall y | y in after :: y in before
  {
    assert |multiset(before)| == |multiset(after)| + 1;
    forall y | y in after ensures y in before { assert y in multiset(after) && y in multiset(before); }
  }

  /** Pushing any items and then draining the queue sorts them. */
  method PushAllThenDrain<T(!new)>(less: (T, T) -> bool, items: seq<T>) returns (drained: seq<T>)
    requires StrictWeakOrder(less)
    ensures multiset(drained) == multiset(items) && NonIncreasing(less, drained)
  {
    var queue := new OrderPriorityQueue<T>(less);
    for i := 0 to |items|
      invariant queue.Valid() && queue.less == less && fresh(queue) && multiset(queue.heap) == multiset(items[..i])
    {
      queue.Push(items[i]);
      assert items[..i + 1] == items[..i] + [items[i]];
    }
    assert items[..|items|] == items;
    drained := [];
    while queue.heap != []
      invariant queue.Valid() && queue.less == less && fresh(queue) && multiset(queue.heap) + multiset(drained) == multiset(items)
      invariant NonIncreasing(less, drained)
      invariant forall x, y | x in drained && y in queue.heap :: !less(x, y)
      decreases |queue.heap|
    {
      var top := queue.Top();
      ghost var before := queue.heap;
      var raised := queue.Pop();
      OneLess(before, queue.heap, top.value);
      assert forall i | 0 <= i < |drained| :: drained[i] in drained;
      drained := drained + [top.value];
    }
  }

  /** With the default comparator, and with `OrderCompare`, the top has the highest price. */
  method HighestPrice(queue: OrderPriorityQueue<Order>) returns (top: Option<Order>)
    requires queue.Valid() && queue.less == ByPrice
    ensures top == None <==> queue.heap == []
    ensures top.Some? ==> top.value in queue.heap && forall x | x in queue.heap :: x.price <= top.value.price
  {
    top := queue.Top();
    if top.Some? {
      forall x | x in queue.heap ensures x.price <= top.value.price { assert !ByPrice(top.value, x); }
    }
  }

  /** With `std::greater` the top has the lowest. */
  method LowestPrice(queue: OrderPriorityQueue<Order>) returns (top: Option<Order>)
    requires queue.Valid() && queue.less == ByPriceDescending
    ensures top == None <==> queue.heap == []
    ensures top.Some? ==> top.value in queue.heap && forall x | x in queue.heap :: x.price >= top.value.price
  {
    top := queue.Top();
    if top.Some? {
      forall x | x in queue.heap ensures x.price >= top.value.price { assert !ByPriceDescending(top.value, x); }
    }
  }

  /** So orders drain from the highest price down, or from the lowest up. */
  method DrainByPrice(orders: seq<Order>) returns (falling: seq<Order>, rising: seq<Order>)
    ensures multiset(falling) == multiset(orders) && forall i, j | 0 <= i < j < |falling| :: falling[i].price >= falling[j].price
    ensures multiset(rising) == multiset(orders) && forall i, j | 0 <= i < j < |rising| :: rising[i].price <= rising[j].price
  {
    ComparatorsAreStrictWeakOrders();
    falling := PushAllThenDrain(ByPrice, orders);
    rising := PushAllThenDrain(ByPriceDescending, orders);
    forall i, j | 0 <= i < j < |falling| ensures falling[i].price >= falling[j].price { assert !ByPrice(falling[i], falling[j]); }
    forall i, j | 0 <= i < j < |rising| ensures rising[i].price <= rising[j].price { assert !ByPriceDescending(rising[i], rising[j]); }
  }
}
