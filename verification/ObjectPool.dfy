/** The pool of reusable objects: slots, a list of free slot numbers and two counters.  A pointer is the number
    of its slot. */
module ObjectPools {
  import opened Wrappers
  import opened SlotSets

  class ObjectPool<T> {
    const blank: T
    var slots: seq<T>
    var freeIndices: seq<nat>
    var capacity: nat
    var usedCount: int

    /** The free list names each free slot once, and the counters add up. */
    ghost predicate Valid()
      reads this
    {
      && capacity == |slots| && usedCount + |freeIndices| == capacity
      && (forall i | i in freeIndices :: i < capacity)
      && Distinct(freeIndices)
    }

    constructor (initialCapacity: nat, blank: T)
      ensures Valid() && capacity == initialCapacity && usedCount == 0 && |freeIndices| == capacity
      ensures forall p: nat :: p in freeIndices <==> p < capacity
    {
      this.blank := blank;
      slots, freeIndices, capacity, usedCount := [], [], 0, 0;
      new;
      if initialCapacity > 0 { Reserve(initialCapacity); }
    }

    /** `reserve`: the pool only grows, and the new slots go to the end of the free list. */
    method Reserve(newCapacity: nat)
      requires Valid()
      modifies this
      ensures Valid() && usedCount == old(usedCount)
      ensures capacity == if newCapacity <= old(capacity) then old(capacity) else newCapacity
      ensures forall p: nat :: p in freeIndices <==> p in old(freeIndices) || old(capacity) <= p < capacity
      ensures old(freeIndices) <= freeIndices
      ensures old(slots) <= slots
    {
      if newCapacity <= capacity { return; }
      var grown := slots + seq(newCapacity - capacity, _ => blank);
      slots := grown;
      for i := capacity to newCapacity
        invariant |freeIndices| == |old(freeIndices)| + i - capacity && old(freeIndices) <= freeIndices
        invariant slots == grown
        invariant capacity == old(capacity) && usedCount == old(usedCount)
        invariant forall p: nat :: p in freeIndices <==> p in old(freeIndices) || capacity <= p < i
        invariant Distinct(freeIndices)
      {
        assert i !in freeIndices;
        freeIndices := freeIndices + [i];
      }
      capacity := newCapacity;
    }

    /** `allocate`: constructs the object in the first free slot; fails exactly when there is none. */
    method Allocate(value: T) returns (pointer: Option<nat>)
      requires Valid()
      modifies this
      ensures Valid() && capacity == old(capacity)
      ensures pointer == None <==> old(freeIndices) == []
      ensures pointer == None ==> unchanged(this)
      ensures pointer.Some? ==>
                var p := pointer.value;
                && p < capacity && p == old(freeIndices)[0] && freeIndices == old(freeIndices)[1..] && slots == old(slots)[p := value] && usedCount == old(usedCount) + 1
                && forall q: nat :: q in freeIndices <==> q in old(freeIndices) && q != p
    {
      if freeIndices == [] { return None; }
      var index := freeIndices[0];
      assert index in freeIndices;
      ghost var was := freeIndices;
      freeIndices := freeIndices[1..];
      assert was == [index] + freeIndices;
      assert forall q | q in freeIndices :: q in was;
      slots := slots[index := value];
      usedCount := usedCount + 1;
      pointer := Some(index);
    }

    /** `deallocate`: the slot goes to the end of the free list; a pointer outside the pool is refused.  The pool stays
        in order exactly when the slot was live: a slot returned twice is on the free list twice. */
    method Deallocate(pointer: int)
      requires Valid()
      modifies this
      ensures slots == old(slots) && capacity == old(capacity)
      ensures Valid() <==> (0 <= pointer < capacity ==> pointer !in old(freeIndices))
      ensures !(0 <= pointer < capacity) ==> freeIndices == old(freeIndices) && usedCount == old(usedCount)
      ensures 0 <= pointer < capacity ==> freeIndices == old(freeIndices) + [pointer] && usedCount == old(usedCount) - 1
    {
      if pointer < 0 || pointer > capacity - 1 { return; }
      ghost var was := freeIndices;
      freeIndices := freeIndices + [pointer];
      usedCount := usedCount - 1;
      if k :| 0 <= k < |was| && was[k] == pointer {
        assert freeIndices[k] == freeIndices[|was|];
      }
    }
  }
}
