/** The block allocator: a free list threaded through the blocks themselves. */
module MemoryPools {
  import opened SlotSets

  /** A block address, by number; `Null` ends the free list. */
  datatype Pointer = Null | To(block: nat)

  /** `free` is the list that starts at `head` and follows the links; no block occurs in it twice. */
  ghost predicate Linked(links: seq<Pointer>, head: Pointer, free: seq<nat>)
    decreases free
  {
    if free == [] then head == Null
    else
      && head == To(free[0]) && free[0] < |links| && free[0] !in free[1..]
      && Linked(links, links[free[0]], free[1..])
  }

  function NoLink(i: nat): Pointer { Null }

  /** The block reached from `head` by `n` links. */
  function Follow(links: seq<Pointer>, head: Pointer, n: nat): Pointer
    decreases n
  {
    if head.Null? || head.block >= |links| then Null
    else if n == 0 then head
    else Follow(links, links[head.block], n - 1)
  }

  /** Blocks outside the list may hold anything. */
  lemma {:induction false} LinkedFrame(links: seq<Pointer>, links': seq<Pointer>, head: Pointer, free: seq<nat>)
    requires Linked(links, head, free) && |links| == |links'|
    requires forall b: nat | b < |links| && b in free :: links'[b] == links[b]
    ensures Linked(links', head, free)
    decreases free
  {
    if free != [] { LinkedFrame(links, links', links[free[0]], free[1..]); }
  }

  lemma {:induction false} LinkedBelow(links: seq<Pointer>, head: Pointer, free: seq<nat>)
    requires Linked(links, head, free)
    ensures |Elements(free)| == |free| && Elements(free) <= Below(|links|)
    decreases free
  {
    if free != [] {
      LinkedBelow(links, links[free[0]], free[1..]);
      assert Elements(free) == Elements(free[1..]) + {free[0]};
    }
  }

  /** All blocks from `i` on, each linked to the next. */
  lemma {:induction false} LinkedUp(links: seq<Pointer>, i: nat)
    requires i <= |links| && forall j: nat | i <= j < |links| :: links[j] == if j + 1 < |links| then To(j + 1) else Null
    ensures Linked(links, if i < |links| then To(i) else Null, Up(i, |links|))
    decreases |links| - i
  {
    if i < |links| {
      LinkedUp(links, i + 1);
      assert Up(i, |links|)[1..] == Up(i + 1, |links|);
    }
  }

  function Up(i: nat, n: nat): (s: seq<nat>)
    ensures forall b: nat :: b in s <==> i <= b < n
    decreases n - i
  {
    if i >= n then [] else [i] + Up(i + 1, n)
  }

  /** The free list is acyclic: following links passes each free block once and ends. */
  lemma {:induction false} FreeListEnds(links: seq<Pointer>, head: Pointer, free: seq<nat>, n: nat)
    requires Linked(links, head, free)
    ensures Follow(links, head, n) == if n < |free| then To(free[n]) else Null
    decreases n
  {
    if n > 0 && free != [] {
      FreeListEnds(links, links[free[0]], free[1..], n - 1);
    }
  }

  /** Some list starts at `head` and follows the links. */
  ghost predicate IsFreeList(links: seq<Pointer>, head: Pointer) {
    exists free: seq<nat> :: Linked(links, head, free)
  }

  lemma FirstInside(links: seq<Pointer>, free: seq<nat>)
    ensures Linked(links, To(0), free) ==> 0 < |links|
  {
  }

  /** What the constructor carves is a free list exactly when there is a block: with none, its head points outside. */
  lemma CarvedIffBlocks(links: seq<Pointer>)
    requires forall j: nat | j < |links| :: links[j] == if j + 1 < |links| then To(j + 1) else Null
    ensures IsFreeList(links, To(0)) <==> 0 < |links|
  {
    if 0 < |links| {
      LinkedUp(links, 0);
      var free := Up(0, |links|);
      assert Linked(links, To(0), free);
    } else {
      forall free: seq<nat> ensures !Linked(links, To(0), free) { FirstInside(links, free); }
    }
  }

  /** If block `b` is on the list from `head`, it is on every list from there that differs in the link of `b` only. */
  lemma {:induction false} StillReached(links: seq<Pointer>, b: nat, p: Pointer, head: Pointer, free: seq<nat>, free': seq<nat>)
    requires b < |links| && Linked(links, head, free) && b in free && Linked(links[b := p], head, free')
    ensures b in free'
    decreases free
  {
    if free[0] != b { StillReached(links, b, p, links[free[0]], free[1..], free'[1..]); }
  }

  /** Returning a block leaves a free list exactly when the block was not on it: a block returned twice closes a cycle. */
  lemma ReturnedIffLive(links: seq<Pointer>, head: Pointer, free: seq<nat>, b: nat)
    requires Linked(links, head, free) && b < |links|
    ensures IsFreeList(links[b := head], To(b)) <==> b !in free
  {
    var links' := links[b := head];
    if b !in free {
      LinkedFrame(links, links', head, free);
      var free' := [b] + free;
      assert free'[1..] == free;
      assert Linked(links', To(b), free');
    } else if IsFreeList(links', To(b)) {
      var free': seq<nat> :| Linked(links', To(b), free');
      StillReached(links, b, head, head, free, free'[1..]);
    }
  }

  class MemoryPool {
    const poolSize: nat
    const links: array<Pointer>
    var freeList: Pointer
    /** The free blocks, in list order. */
    ghost var free: seq<nat>

    ghost predicate Valid()
      reads this, links
    {
      links.Length == poolSize && Linked(links[..], freeList, free)
    }

    /** The blocks handed out and not yet returned. */
    ghost function Live(): set<nat>
      reads this
    {
      Below(poolSize) - Elements(free)
    }

    /** All blocks are free, in address order, provided there are any. */
    constructor (size: nat)
      ensures fresh(links) && poolSize == size && free == Up(0, size) && Live() == {}
      ensures Valid() <==> 0 < size
    {
      poolSize := size;
      var slots := new Pointer[size](NoLink);
      links := slots;
      freeList := To(0);
      free := Up(0, size);
      new;
      for i := 0 to size
        invariant links == slots && slots.Length == size && freeList == To(0)
        invariant free == Up(0, size)
        invariant forall j | 0 <= j < i :: slots[j] == if j + 1 < size then To(j + 1) else Null
      {
        slots[i] := if i + 1 < size then To(i + 1) else Null;
      }
      if 0 < size { LinkedUp(links[..], 0); }
    }

    /** Takes the first free block; fails exactly when there is none. */
    method Allocate() returns (result: Pointer)
      requires Valid()
      modifies this
      ensures Valid()
      ensures result == Null <==> old(free) == []
      ensures result == Null ==> free == [] && Live() == old(Live())
      ensures result.To? ==> free == old(free)[1..] && result.block == old(free)[0]
      ensures result.To? ==> result.block !in old(Live()) && Live() == old(Live()) + {result.block}
    {
      if freeList == Null { return Null; }
      result := freeList;
      ghost var was := free;
      freeList := links[freeList.block];
      free := free[1..];
      assert was == [was[0]] + free;
    }

    /** What a holder does with a block: its memory, the link included, may become anything. */
    method Overwrite(block: nat, content: Pointer)
      requires Valid() && block in Live()
      modifies links
      ensures Valid()
    {
      ghost var was := links[..];
      links[block] := content;
      LinkedFrame(was, links[..], freeList, free);
    }

    /** Returns a block to the front of the list, which stays a list exactly when the block was live; a null pointer
        is ignored. */
    method Deallocate(pointer: Pointer)
      requires Valid() && (pointer.To? ==> pointer.block < poolSize)
      modifies this, links
      ensures Valid() <==> (pointer.To? ==> pointer.block in old(Live()))
      ensures pointer == Null ==> free == old(free) && Live() == old(Live())
      ensures pointer.To? ==> free == [pointer.block] + old(free) && Live() == old(Live()) - {pointer.block}
      ensures pointer.To? ==> freeList == pointer && links[..] == old(links[..])[pointer.block := old(freeList)]
    {
      if pointer == Null { return; }
      ghost var was := links[..];
      links[pointer.block] := freeList;
      if pointer.block !in free { LinkedFrame(was, links[..], freeList, free); }
      freeList := pointer;
      free := [pointer.block] + free;
    }

    /** Free and live blocks partition the pool. */
    lemma Partition()
      requires Valid()
      ensures |free| + |Live()| == poolSize
      ensures forall b :: b in free ==> b !in Live()
    {
      LinkedBelow(links[..], freeList, free);
      assert |Live()| == |Below(poolSize)| - |Elements(free)|;
    }
  }
}
