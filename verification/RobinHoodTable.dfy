/** Tables of the Robin Hood hash map, as values: where a key may sit, and what a probe walk preserves.

    A stored probe distance is only an upper bound: after an exchange the displaced entry goes on with the
    distance of the entry that displaced it.  The invariant below is what survives that. */
module RobinHoodTable {
  import opened Wrappers

  datatype Entry<K, V> = Entry(key: K, value: V, occupied: bool, probe: nat)

  /** Cyclic distance from slot `h` to slot `p`. */
  function Dist(cap: nat, h: nat, p: nat): nat
    requires h < cap && p < cap
  {
    if h <= p then p - h else p + cap - h
  }

  function Next(cap: nat, p: nat): nat
    requires p < cap
  {
    if p + 1 == cap then 0 else p + 1
  }

  lemma NextSlot(cap: nat, p: nat)
    requires p < cap
    ensures Next(cap, p) == (p + 1) % cap
  {
  }

  function Home<K, V>(tbl: seq<Entry<K, V>>, hash: K -> nat, key: K): (h: nat)
    requires tbl != []
    ensures h < |tbl|
  {
    hash(key) % |tbl|
  }

  predicate Holds<K(==), V>(tbl: seq<Entry<K, V>>, p: nat, key: K) {
    p < |tbl| && tbl[p].occupied && tbl[p].key == key
  }

  /** The stored distance at slot `j` is enough to be passed by a walk from `h`. */
  predicate Covers<K, V>(tbl: seq<Entry<K, V>>, h: nat, j: nat)
    requires h < |tbl| && j < |tbl|
  {
    tbl[j].occupied && Dist(|tbl|, h, j) <= tbl[j].probe
  }

  /** Every slot strictly before `p` on the cyclic path from `h` covers that walk. */
  ghost predicate PathTo<K, V>(tbl: seq<Entry<K, V>>, h: nat, p: nat)
    requires h < |tbl| && p < |tbl|
  {
    forall j: nat | j < |tbl| && Dist(|tbl|, h, j) < Dist(|tbl|, h, p) :: Covers(tbl, h, j)
  }

  /** The probe invariant: from its home to its slot, and including it, the path of every entry is covered. */
  ghost predicate Probing<K, V>(tbl: seq<Entry<K, V>>, hash: K -> nat) {
    forall p: nat | p < |tbl| && tbl[p].occupied ::
      PathTo(tbl, Home(tbl, hash, tbl[p].key), p) && Covers(tbl, Home(tbl, hash, tbl[p].key), p)
  }

  ghost predicate Distinct<K, V>(tbl: seq<Entry<K, V>>) {
    forall p: nat, q: nat | p < q < |tbl| && tbl[p].occupied && tbl[q].occupied :: tbl[p].key != tbl[q].key
  }

  ghost predicate Represents<K(!new), V>(tbl: seq<Entry<K, V>>, m: map<K, V>) {
    && (forall p: nat | p < |tbl| && tbl[p].occupied :: tbl[p].key in m && m[tbl[p].key] == tbl[p].value)
    && (forall k | k in m :: exists p: nat :: Holds(tbl, p, k))
  }

  function Occupied<K, V>(tbl: seq<Entry<K, V>>): (n: nat)
    ensures n <= |tbl|
  {
    if tbl == [] then 0 else Occupied(tbl[..|tbl| - 1]) + if tbl[|tbl| - 1].occupied then 1 else 0
  }

  lemma {:induction false} OccupiedUpdate<K, V>(tbl: seq<Entry<K, V>>, i: nat, e: Entry<K, V>)
    requires i < |tbl|
    ensures Occupied(tbl[i := e]) + (if tbl[i].occupied then 1 else 0) == Occupied(tbl) + (if e.occupied then 1 else 0)
  {
    var last := |tbl| - 1;
    if i == last {
      assert tbl[i := e][..last] == tbl[..last];
    } else {
      OccupiedUpdate(tbl[..last], i, e);
      assert tbl[i := e][..last] == tbl[..last][i := e];
    }
  }

  lemma {:induction false} FreeSlot<K, V>(tbl: seq<Entry<K, V>>) returns (f: nat)
    requires Occupied(tbl) < |tbl|
    ensures f < |tbl| && !tbl[f].occupied
  {
    f := |tbl| - 1;
    if tbl[f].occupied { f := FreeSlot(tbl[..f]); }
  }

  lemma {:induction false} NoneOccupied<K, V>(tbl: seq<Entry<K, V>>)
    requires forall e | e in tbl :: !e.occupied
    ensures Occupied(tbl) == 0
  {
    if tbl != [] { NoneOccupied(tbl[..|tbl| - 1]); }
  }

  /** `find` and the search of `erase`: the slot where the walk meets the key, if it does. */
  function Search<K(==), V>(tbl: seq<Entry<K, V>>, key: K, idx: nat, dist: nat): (r: Option<nat>)
    requires idx < |tbl|
    ensures r.Some? ==> Holds(tbl, r.value, key)
    decreases |tbl| + 1 - dist
  {
    if !tbl[idx].occupied then None
    else if tbl[idx].key == key then Some(idx)
    else if dist + 1 > |tbl| then None
    else Search(tbl, key, Next(|tbl|, idx), dist + 1)
  }

  function Find<K(==), V>(tbl: seq<Entry<K, V>>, hash: K -> nat, key: K): (r: Option<nat>)
    requires tbl != []
    ensures r.Some? ==> Holds(tbl, r.value, key)
  {
    Search(tbl, key, Home(tbl, hash, key), 0)
  }

  /** No free slot lies before `p` on the path from `h`. */
  ghost predicate Unbroken<K, V>(tbl: seq<Entry<K, V>>, h: nat, p: nat)
    requires h < |tbl| && p < |tbl|
  {
    forall j: nat | j < |tbl| && Dist(|tbl|, h, j) < Dist(|tbl|, h, p) :: tbl[j].occupied
  }

  lemma {:induction false} SearchHits<K, V>(tbl: seq<Entry<K, V>>, key: K, h: nat, idx: nat, p: nat)
    requires Distinct(tbl) && h < |tbl| && idx < |tbl| && Holds(tbl, p, key) && Unbroken(tbl, h, p)
    requires Dist(|tbl|, h, idx) <= Dist(|tbl|, h, p)
    ensures Search(tbl, key, idx, Dist(|tbl|, h, idx)) == Some(p)
    decreases Dist(|tbl|, h, p) - Dist(|tbl|, h, idx)
  {
    if idx != p {
      SearchHits(tbl, key, h, Next(|tbl|, idx), p);
    }
  }

  /** A search that meets a free slot before the key gives up. */
  lemma {:induction false} SearchMisses<K, V>(tbl: seq<Entry<K, V>>, key: K, h: nat, idx: nat, p: nat, f: nat)
    requires Distinct(tbl) && h < |tbl| && idx < |tbl| && f < |tbl| && !tbl[f].occupied
    requires Holds(tbl, p, key) ==> Dist(|tbl|, h, f) < Dist(|tbl|, h, p)
    requires forall q: nat :: Holds(tbl, q, key) ==> q == p
    requires Dist(|tbl|, h, idx) <= Dist(|tbl|, h, f)
    ensures Search(tbl, key, idx, Dist(|tbl|, h, idx)) == None
    decreases Dist(|tbl|, h, f) - Dist(|tbl|, h, idx)
  {
    if idx != f && tbl[idx].occupied {
      assert !Holds(tbl, idx, key);
      SearchMisses(tbl, key, h, Next(|tbl|, idx), p, f);
    }
  }

  /** On a table that keeps the probe invariant, `find` is the lookup of the map it represents. */
  lemma FindIsLookup<K(!new), V>(tbl: seq<Entry<K, V>>, hash: K -> nat, m: map<K, V>, key: K)
    requires tbl != [] && Distinct(tbl) && Represents(tbl, m) && Probing(tbl, hash)
    ensures var r := Find(tbl, hash, key);
            (r.Some? <==> key in m) && (r.Some? ==> tbl[r.value].value == m[key])
  {
    if key in m {
      var p: nat :| Holds(tbl, p, key);
      var h := Home(tbl, hash, key);
      assert PathTo(tbl, h, p);
      forall j: nat | j < |tbl| && Dist(|tbl|, h, j) < Dist(|tbl|, h, p) ensures tbl[j].occupied {
        assert Covers(tbl, h, j);
      }
      SearchHits(tbl, key, h, h, p);
    }
  }

  // ---------------------------------------------------------------- the walk of an insertion

  /** The entry a walk carries: it may be put down at `idx` without breaking the invariant. */
  ghost predicate Carried<K, V>(tbl: seq<Entry<K, V>>, hash: K -> nat, e: Entry<K, V>, idx: nat)
    requires idx < |tbl|
  {
    var h := Home(tbl, hash, e.key);
    e.occupied && Dist(|tbl|, h, idx) <= e.probe && PathTo(tbl, h, idx)
  }

  /** A key that the walk has not met, at a slot that does not cover its walk, is nowhere in the table:
      a present key is always met before any exchange and before any free slot. */
  lemma AbsentKey<K, V>(tbl: seq<Entry<K, V>>, hash: K -> nat, key: K, idx: nat)
    requires idx < |tbl| && Probing(tbl, hash)
    requires var h := Home(tbl, hash, key);
             && !Covers(tbl, h, idx)
             && forall j: nat | j < |tbl| && Dist(|tbl|, h, j) < Dist(|tbl|, h, idx) :: !Holds(tbl, j, key)
    ensures forall p: nat :: !Holds(tbl, p, key)
  {
    forall p: nat ensures !Holds(tbl, p, key) {
      if p < |tbl| && tbl[p].occupied {
        var h := Home(tbl, hash, tbl[p].key);
        assert PathTo(tbl, h, p) && Covers(tbl, h, p);
        assert Dist(|tbl|, h, idx) < Dist(|tbl|, h, p) ==> Covers(tbl, h, idx);
      }
    }
  }

  /** Passing an entry whose distance is at least the walk's. */
  lemma Advance<K, V>(tbl: seq<Entry<K, V>>, hash: K -> nat, e: Entry<K, V>, idx: nat, f: nat)
    requires idx < |tbl| && f < |tbl| && !tbl[f].occupied
    requires Carried(tbl, hash, e, idx) && tbl[idx].occupied && e.probe <= tbl[idx].probe
    ensures Carried(tbl, hash, e.(probe := e.probe + 1), Next(|tbl|, idx))
  {
    var h := Home(tbl, hash, e.key);
    assert Covers(tbl, h, idx);
    assert Dist(|tbl|, h, f) < Dist(|tbl|, h, idx) ==> Covers(tbl, h, f);
    forall j: nat | j < |tbl| && Dist(|tbl|, h, j) < Dist(|tbl|, h, Next(|tbl|, idx)) ensures Covers(tbl, h, j) {
      assert j == idx || Dist(|tbl|, h, j) < Dist(|tbl|, h, idx);
    }
  }

  /** Putting the carried entry down, on a free slot or in place of an entry with a smaller distance. */
  lemma PutDown<K, V>(tbl: seq<Entry<K, V>>, hash: K -> nat, e: Entry<K, V>, idx: nat)
    requires idx < |tbl| && Probing(tbl, hash) && Carried(tbl, hash, e, idx)
    requires tbl[idx].occupied ==> tbl[idx].probe <= e.probe
    ensures Probing(tbl[idx := e], hash)
  {
    var tbl' := tbl[idx := e];
    forall p: nat | p < |tbl'| && tbl'[p].occupied
      ensures var h := Home(tbl', hash, tbl'[p].key); PathTo(tbl', h, p) && Covers(tbl', h, p)
    {
      var h := Home(tbl', hash, tbl'[p].key);
      assert p == idx || (PathTo(tbl, h, p) && Covers(tbl, h, p));
      assert PathTo(tbl, h, p);
      forall j: nat | j < |tbl'| && Dist(|tbl|, h, j) < Dist(|tbl|, h, p) ensures Covers(tbl', h, j) {
        assert Covers(tbl, h, j);
      }
    }
  }

  /** The entry taken up in an exchange can be carried on, with the walk's own count as its distance. */
  lemma TakeUp<K, V>(tbl: seq<Entry<K, V>>, hash: K -> nat, e: Entry<K, V>, idx: nat, f: nat)
    requires idx < |tbl| && Probing(tbl, hash)
    requires tbl[idx].occupied && tbl[idx].probe < e.probe && e.occupied && f < |tbl| && !tbl[f].occupied
    ensures Carried(tbl[idx := e], hash, tbl[idx].(probe := e.probe + 1), Next(|tbl|, idx))
  {
    var tbl', up := tbl[idx := e], tbl[idx];
    var h := Home(tbl, hash, up.key);
    assert PathTo(tbl, h, idx) && Covers(tbl, h, idx);
    forall j: nat | j < |tbl| && Dist(|tbl|, h, j) < Dist(|tbl|, h, idx) ensures Covers(tbl', h, j) {
      assert Covers(tbl, h, j);
    }
    assert Carried(tbl', hash, up.(probe := e.probe), idx);
    Advance(tbl', hash, up.(probe := e.probe), idx, f);
  }

  /** The table and the carried entry together stand for `m`. */
  ghost predicate Pending<K(!new), V>(tbl: seq<Entry<K, V>>, m: map<K, V>, e: Entry<K, V>) {
    Distinct(tbl) && e.key in m && m[e.key] == e.value && Represents(tbl, m - {e.key})
  }

  lemma PendingStart<K(!new), V>(tbl: seq<Entry<K, V>>, m: map<K, V>, e: Entry<K, V>)
    requires Distinct(tbl) && Represents(tbl, m) && forall p: nat :: !Holds(tbl, p, e.key)
    ensures e.key !in m && Pending(tbl, m[e.key := e.value], e)
  {
    assert forall p: nat | p < |tbl| && tbl[p].occupied :: !Holds(tbl, p, e.key);
  }

  /** An exchange loses nothing: the entry taken up takes the place of the one put down. */
  lemma PendingExchange<K(!new), V>(tbl: seq<Entry<K, V>>, m: map<K, V>, e: Entry<K, V>, idx: nat)
    requires idx < |tbl| && tbl[idx].occupied && e.occupied && Pending(tbl, m, e)
    ensures Pending(tbl[idx := e], m, tbl[idx])
  {
    var tbl', up := tbl[idx := e], tbl[idx];
    var rest := m - {e.key};
    forall k | k in m && k != up.key ensures exists p: nat :: Holds(tbl', p, k) {
      if k == e.key {
        assert Holds(tbl', idx, k);
      } else {
        assert k in rest;
        var p: nat :| Holds(tbl, p, k);
        assert Holds(tbl', p, k);
      }
    }
  }

  lemma PendingEnd<K(!new), V>(tbl: seq<Entry<K, V>>, m: map<K, V>, e: Entry<K, V>, idx: nat)
    requires idx < |tbl| && !tbl[idx].occupied && e.occupied && Pending(tbl, m, e)
    ensures Distinct(tbl[idx := e]) && Represents(tbl[idx := e], m)
  {
    var tbl', rest := tbl[idx := e], m - {e.key};
    forall k | k in m ensures exists p: nat :: Holds(tbl', p, k) {
      if k == e.key {
        assert Holds(tbl', idx, k);
      } else {
        assert k in rest;
        var p: nat :| Holds(tbl, p, k);
        assert Holds(tbl', p, k);
      }
    }
  }

  lemma ReplaceRepresents<K(!new), V>(tbl: seq<Entry<K, V>>, m: map<K, V>, idx: nat, v: V)
    requires idx < |tbl| && tbl[idx].occupied && Distinct(tbl) && Represents(tbl, m)
    ensures var tbl' := tbl[idx := tbl[idx].(value := v)];
            Distinct(tbl') && Represents(tbl', m[tbl[idx].key := v])
  {
    var tbl' := tbl[idx := tbl[idx].(value := v)];
    forall k | k in m ensures exists p: nat :: Holds(tbl', p, k) {
      var p: nat :| Holds(tbl, p, k);
      assert Holds(tbl', p, k);
    }
  }

  lemma UpdateValue<K, V>(tbl: seq<Entry<K, V>>, hash: K -> nat, idx: nat, v: V)
    requires idx < |tbl| && Probing(tbl, hash)
    ensures Probing(tbl[idx := tbl[idx].(value := v)], hash)
  {
    var tbl' := tbl[idx := tbl[idx].(value := v)];
    forall p: nat | p < |tbl'| && tbl'[p].occupied
      ensures var h := Home(tbl', hash, tbl'[p].key); PathTo(tbl', h, p) && Covers(tbl', h, p)
    {
      var h := Home(tbl, hash, tbl[p].key);
      assert PathTo(tbl, h, p) && Covers(tbl, h, p);
      forall j: nat | j < |tbl'| && Dist(|tbl|, h, j) < Dist(|tbl|, h, p) ensures Covers(tbl', h, j) {
        assert Covers(tbl, h, j);
      }
    }
  }

  /** Every slot on the way from the key's home to the key is occupied and stores a distance that lets the walk pass. */
  ghost predicate Reached<K(!new), V>(tbl: seq<Entry<K, V>>, hash: K -> nat, key: K)
    requires tbl != []
  {
    exists p: nat :: Holds(tbl, p, key) && PathTo(tbl, Home(tbl, hash, key), p)
  }

  /** The key is new, or its walk reaches it: what an insertion needs, holes or no holes. */
  ghost predicate SafeToInsert<K(!new), V>(tbl: seq<Entry<K, V>>, hash: K -> nat, c: map<K, V>, key: K)
    requires tbl != []
  {
    key in c ==> Reached(tbl, hash, key)
  }

  lemma ProbingIsSafe<K(!new), V>(tbl: seq<Entry<K, V>>, hash: K -> nat, c: map<K, V>, key: K)
    requires tbl != [] && Represents(tbl, c) && Probing(tbl, hash)
    ensures SafeToInsert(tbl, hash, c, key)
  {
    if key in c {
      var p: nat :| Holds(tbl, p, key);
      assert PathTo(tbl, Home(tbl, hash, key), p);
    }
  }

  /** An insertion: the table and map it starts from, a free slot, and where the key is if it is present. */
  datatype Insertion<!K, V> = Insertion(start: seq<Entry<K, V>>, hash: K -> nat, contents: map<K, V>, key: K, value: V, free: nat, at: nat)

  ghost predicate WellStarted<K(!new), V>(ins: Insertion<K, V>) {
    && Distinct(ins.start) && Represents(ins.start, ins.contents)
    && ins.free < |ins.start| && !ins.start[ins.free].occupied
    && (ins.key in ins.contents ==> Holds(ins.start, ins.at, ins.key))
  }

  function HomeOf<K, V>(ins: Insertion<K, V>): (h: nat)
    requires ins.start != []
    ensures h < |ins.start|
  {
    Home(ins.start, ins.hash, ins.key)
  }

  /** The slots from `idx` on are as they were. */
  ghost predicate Ahead<K, V>(ins: Insertion<K, V>, tbl: seq<Entry<K, V>>, idx: nat)
    requires idx < |tbl| == |ins.start|
  {
    forall j: nat | j < |tbl| && Dist(|tbl|, HomeOf(ins), idx) <= Dist(|tbl|, HomeOf(ins), j) :: tbl[j] == ins.start[j]
  }

  ghost predicate OnWay<K, V>(ins: Insertion<K, V>, tbl: seq<Entry<K, V>>, e: Entry<K, V>, idx: nat)
    requires idx < |tbl| == |ins.start|
  {
    && e.occupied && e.probe == Dist(|tbl|, HomeOf(ins), idx)
    && Unbroken(tbl, HomeOf(ins), idx) && Ahead(ins, tbl, idx)
    && ins.free < |tbl| && !tbl[ins.free].occupied
  }

  /** The key is present ahead, and nothing has been exchanged on the way to it. */
  ghost predicate Untouched<K, V>(ins: Insertion<K, V>, tbl: seq<Entry<K, V>>, e: Entry<K, V>, idx: nat)
    requires idx < |tbl| == |ins.start|
  {
    tbl == ins.start && e.key == ins.key && e.value == ins.value && PathTo(ins.start, HomeOf(ins), idx)
  }

  /** The key is present ahead, and an exchange has stored it a second time. */
  ghost predicate Doubled<K(!new), V>(ins: Insertion<K, V>, tbl: seq<Entry<K, V>>, idx: nat)
    requires idx < |tbl| == |ins.start|
  {
    && !PathTo(ins.start, HomeOf(ins), idx)
    && exists q: nat :: Holds(tbl, q, ins.key) && Dist(|tbl|, HomeOf(ins), q) < Dist(|tbl|, HomeOf(ins), idx)
  }

  /** What table and carried entry stand for. */
  ghost predicate InHand<K(!new), V>(ins: Insertion<K, V>, tbl: seq<Entry<K, V>>, e: Entry<K, V>, idx: nat)
    requires idx < |tbl| == |ins.start|
  {
    if ins.key !in ins.contents then Pending(tbl, ins.contents[ins.key := ins.value], e)
    else
      && ins.at < |tbl| && Dist(|tbl|, HomeOf(ins), idx) <= Dist(|tbl|, HomeOf(ins), ins.at)
      && (Untouched(ins, tbl, e, idx) || Doubled(ins, tbl, idx))
  }

  /** The state of an insertion's probe loop. */
  ghost predicate Walking<K(!new), V>(ins: Insertion<K, V>, tbl: seq<Entry<K, V>>, e: Entry<K, V>, idx: nat) {
    && WellStarted(ins) && idx < |tbl| == |ins.start|
    && OnWay(ins, tbl, e, idx) && InHand(ins, tbl, e, idx)
    && (Probing(ins.start, ins.hash) ==> Probing(tbl, ins.hash) && Carried(tbl, ins.hash, e, idx))
  }

  /** The outcome of an insertion: with a safe key the table stands for the map with the pair, otherwise it does
      not even hold its keys once; and the probe invariant is kept. */
  ghost predicate Outcome<K(!new), V>(ins: Insertion<K, V>, tbl: seq<Entry<K, V>>)
    requires ins.start != []
  {
    && ((Distinct(tbl) && Represents(tbl, ins.contents[ins.key := ins.value]))
        <==> SafeToInsert(ins.start, ins.hash, ins.contents, ins.key))
    && (Probing(ins.start, ins.hash) ==> Probing(tbl, ins.hash))
  }

  /** The free slot is still ahead, so the next slot is one step further from the key's home. */
  lemma StepOn<K, V>(tbl: seq<Entry<K, V>>, h: nat, idx: nat, f: nat)
    requires h < |tbl| && idx < |tbl| && f < |tbl| && !tbl[f].occupied && tbl[idx].occupied && Unbroken(tbl, h, idx)
    ensures Dist(|tbl|, h, Next(|tbl|, idx)) == Dist(|tbl|, h, idx) + 1 && Unbroken(tbl, h, Next(|tbl|, idx))
  {
    assert Dist(|tbl|, h, idx) < Dist(|tbl|, h, f);
    forall j: nat | j < |tbl| && Dist(|tbl|, h, j) < Dist(|tbl|, h, Next(|tbl|, idx)) ensures tbl[j].occupied {
      assert j == idx || Dist(|tbl|, h, j) < Dist(|tbl|, h, idx);
    }
  }

  /** A walk that has come one slot further has passed that slot. */
  lemma PathFurther<K, V>(tbl: seq<Entry<K, V>>, h: nat, idx: nat, next: nat)
    requires h < |tbl| && idx < |tbl| && next < |tbl| && Dist(|tbl|, h, next) == Dist(|tbl|, h, idx) + 1
    ensures PathTo(tbl, h, next) <==> PathTo(tbl, h, idx) && Covers(tbl, h, idx)
  {
    if PathTo(tbl, h, idx) && Covers(tbl, h, idx) {
      forall j: nat | j < |tbl| && Dist(|tbl|, h, j) < Dist(|tbl|, h, next) ensures Covers(tbl, h, j) {
        assert j == idx || Dist(|tbl|, h, j) < Dist(|tbl|, h, idx);
      }
    }
  }

  lemma WalkStarts<K(!new), V>(ins: Insertion<K, V>)
    requires WellStarted(ins)
    ensures Walking(ins, ins.start, Entry(ins.key, ins.value, true, 0), HomeOf(ins))
  {
    var e := Entry(ins.key, ins.value, true, 0);
    if ins.key !in ins.contents {
      forall p: nat ensures !Holds(ins.start, p, ins.key) { assert Holds(ins.start, p, ins.key) ==> ins.key in ins.contents; }
      PendingStart(ins.start, ins.contents, e);
    } else {
      assert Untouched(ins, ins.start, e, HomeOf(ins));
    }
  }

  /** The slot in front of the walk is as in the start table. */
  lemma SlotAhead<K(!new), V>(ins: Insertion<K, V>, tbl: seq<Entry<K, V>>, e: Entry<K, V>, idx: nat)
    requires Walking(ins, tbl, e, idx)
    ensures idx < |tbl| == |ins.start| && e.occupied && ins.start[idx] == tbl[idx]
  {
    hide WellStarted, InHand, Probing, Carried, Unbroken;
  }

  lemma SearchStep<K, V>(tbl: seq<Entry<K, V>>, key: K, idx: nat, dist: nat)
    requires idx < |tbl|
    ensures !tbl[idx].occupied ==> Search(tbl, key, idx, dist) == None
    ensures Holds(tbl, idx, key) ==> Search(tbl, key, idx, dist) == Some(idx)
    ensures tbl[idx].occupied && tbl[idx].key != key && dist + 1 <= |tbl| ==>
              Search(tbl, key, idx, dist) == Search(tbl, key, Next(|tbl|, idx), dist + 1)
  {
  }

  lemma WalkPasses<K(!new), V>(ins: Insertion<K, V>, tbl: seq<Entry<K, V>>, e: Entry<K, V>, idx: nat)
    requires Walking(ins, tbl, e, idx)
    requires tbl[idx].occupied && tbl[idx].key != ins.key && e.probe <= tbl[idx].probe
    ensures e.probe + 1 < |tbl| && Walking(ins, tbl, e.(probe := e.probe + 1), Next(|tbl|, idx))
  {
    hide Represents, Distinct, Pending;
    StepOn(tbl, HomeOf(ins), idx, ins.free);
    if Probing(ins.start, ins.hash) { Advance(tbl, ins.hash, e, idx, ins.free); }
    hide Probing, Carried, PathTo;
    PassInHand(ins, tbl, e, idx, Next(|tbl|, idx));
  }

  lemma PassInHand<K(!new), V>(ins: Insertion<K, V>, tbl: seq<Entry<K, V>>, e: Entry<K, V>, idx: nat, next: nat)
    requires WellStarted(ins) && idx < |tbl| == |ins.start| && next < |tbl| && OnWay(ins, tbl, e, idx) && InHand(ins, tbl, e, idx)
    requires tbl[idx].occupied && tbl[idx].key != ins.key && e.probe <= tbl[idx].probe
    requires Dist(|tbl|, HomeOf(ins), next) == Dist(|tbl|, HomeOf(ins), idx) + 1
    ensures InHand(ins, tbl, e.(probe := e.probe + 1), next)
  {
    hide Represents, Distinct;
    PathFurther(ins.start, HomeOf(ins), idx, next);
    hide PathTo;
    if ins.key in ins.contents && Doubled(ins, tbl, idx) {
      var q: nat :| Holds(tbl, q, ins.key) && Dist(|tbl|, HomeOf(ins), q) < Dist(|tbl|, HomeOf(ins), idx);
      assert Doubled(ins, tbl, next);
    }
  }

  lemma WalkExchanges<K(!new), V>(ins: Insertion<K, V>, tbl: seq<Entry<K, V>>, e: Entry<K, V>, idx: nat)
    requires Walking(ins, tbl, e, idx)
    requires tbl[idx].occupied && tbl[idx].key != ins.key && tbl[idx].probe < e.probe
    ensures e.probe + 1 < |tbl|
    ensures Walking(ins, tbl[idx := e], tbl[idx].(probe := e.probe + 1), Next(|tbl|, idx))
  {
    hide Represents, Distinct, Pending, InHand, Home;
    var h, next, tbl' := HomeOf(ins), Next(|tbl|, idx), tbl[idx := e];
    StepOn(tbl', h, idx, ins.free);
    PathFurther(ins.start, h, idx, next);
    if Probing(ins.start, ins.hash) {
      PutDown(tbl, ins.hash, e, idx);
      TakeUp(tbl, ins.hash, e, idx, ins.free);
    }
    ExchangeInHand(ins, tbl, e, idx, next);
    assert OnWay(ins, tbl', tbl[idx].(probe := e.probe + 1), next);
  }

  lemma ExchangeInHand<K(!new), V>(ins: Insertion<K, V>, tbl: seq<Entry<K, V>>, e: Entry<K, V>, idx: nat, next: nat)
    requires WellStarted(ins) && idx < |tbl| == |ins.start| && next < |tbl| && OnWay(ins, tbl, e, idx) && InHand(ins, tbl, e, idx)
    requires tbl[idx].occupied && tbl[idx].key != ins.key && tbl[idx].probe < e.probe
    requires Dist(|tbl|, HomeOf(ins), next) == Dist(|tbl|, HomeOf(ins), idx) + 1
    requires !PathTo(ins.start, HomeOf(ins), next)
    ensures InHand(ins, tbl[idx := e], tbl[idx].(probe := e.probe + 1), next)
  {
    hide PathTo, Represents, Distinct, Home;
    var tbl' := tbl[idx := e];
    if ins.key !in ins.contents {
      PendingExchange(tbl, ins.contents[ins.key := ins.value], e, idx);
    } else {
      if Untouched(ins, tbl, e, idx) {
        assert Holds(tbl', idx, ins.key);
      } else {
        var q: nat :| Holds(tbl, q, ins.key) && Dist(|tbl|, HomeOf(ins), q) < Dist(|tbl|, HomeOf(ins), idx);
        assert Holds(tbl', q, ins.key);
      }
      assert Doubled(ins, tbl', next);
    }
  }

  /** The walk ends at a free slot, where the carried entry is put down. */
  lemma WalkEnds<K(!new), V>(ins: Insertion<K, V>, tbl: seq<Entry<K, V>>, e: Entry<K, V>, idx: nat)
    requires Walking(ins, tbl, e, idx) && !tbl[idx].occupied
    ensures Outcome(ins, tbl[idx := e])
  {
    var tbl' := tbl[idx := e];
    if Probing(ins.start, ins.hash) { PutDown(tbl, ins.hash, e, idx); }
    if ins.key !in ins.contents {
      PendingEnd(tbl, ins.contents[ins.key := ins.value], e, idx);
    } else {
      assert Holds(tbl', ins.at, ins.key) && ins.at != idx;
      assert !Covers(ins.start, HomeOf(ins), idx);
      NotReached(ins, idx);
      if Untouched(ins, tbl, e, idx) {
        assert Holds(tbl', idx, ins.key);
      } else {
        var q: nat :| Holds(tbl, q, ins.key) && Dist(|tbl|, HomeOf(ins), q) < Dist(|tbl|, HomeOf(ins), idx);
        assert Holds(tbl', q, ins.key);
      }
    }
  }

  /** A slot on the way to the key that does not let the walk pass. */
  lemma NotReached<K(!new), V>(ins: Insertion<K, V>, j: nat)
    requires WellStarted(ins) && ins.key in ins.contents && j < |ins.start| && !Covers(ins.start, HomeOf(ins), j)
    requires Dist(|ins.start|, HomeOf(ins), j) < Dist(|ins.start|, HomeOf(ins), ins.at)
    ensures !Reached(ins.start, ins.hash, ins.key)
  {
    forall p: nat | Holds(ins.start, p, ins.key) ensures !PathTo(ins.start, HomeOf(ins), p) { assert p == ins.at; }
  }

  /** The walk ends at a slot that holds its key, whose value is replaced. */
  lemma WalkMeets<K(!new), V>(ins: Insertion<K, V>, tbl: seq<Entry<K, V>>, e: Entry<K, V>, idx: nat)
    requires Walking(ins, tbl, e, idx) && Holds(tbl, idx, ins.key)
    ensures Outcome(ins, tbl[idx := tbl[idx].(value := ins.value)])
  {
    var tbl' := tbl[idx := tbl[idx].(value := ins.value)];
    if Probing(ins.start, ins.hash) { UpdateValue(tbl, ins.hash, idx, ins.value); }
    assert Holds(ins.start, idx, ins.key) && ins.key in ins.contents && idx == ins.at;
    if Untouched(ins, tbl, e, idx) {
      ReplaceRepresents(tbl, ins.contents, idx, ins.value);
    } else {
      var q: nat :| Holds(tbl, q, ins.key) && Dist(|tbl|, HomeOf(ins), q) < Dist(|tbl|, HomeOf(ins), idx);
      assert Holds(tbl', q, ins.key) && Holds(tbl', idx, ins.key);
      var j: nat :| j < |tbl| && Dist(|tbl|, HomeOf(ins), j) < Dist(|tbl|, HomeOf(ins), idx) && !Covers(ins.start, HomeOf(ins), j);
      NotReached(ins, j);
    }
  }

  /** The loop's variables: the table, the entry in hand and the slot. */
  datatype Walk<K, V> = Walk(tbl: seq<Entry<K, V>>, hand: Entry<K, V>, idx: nat)

  /** The state of the loop, with what the search over the start table has found so far. */
  ghost predicate Searching<K(!new), V>(ins: Insertion<K, V>, w: Walk<K, V>) {
    match w
    case Walk(tbl, e, idx) =>
      && Walking(ins, tbl, e, idx) && e.probe < |tbl|
      && Find(ins.start, ins.hash, ins.key) == Search(ins.start, ins.key, idx, e.probe)
  }

  lemma SearchingStarts<K(!new), V>(ins: Insertion<K, V>)
    requires WellStarted(ins)
    ensures Searching(ins, Walk(ins.start, Entry(ins.key, ins.value, true, 0), HomeOf(ins)))
  {
    WalkStarts(ins);
  }

  lemma SearchingPasses<K(!new), V>(ins: Insertion<K, V>, tbl: seq<Entry<K, V>>, e: Entry<K, V>, idx: nat)
    requires Searching(ins, Walk(tbl, e, idx)) && idx < |tbl| && tbl[idx].occupied && tbl[idx].key != ins.key && tbl[idx].probe >= e.probe
    ensures Searching(ins, Walk(tbl, e.(probe := e.probe + 1), Next(|tbl|, idx))) && e.probe + 1 < |tbl|
  {
    hide Walking, Search, Home, Find, Next;
    SlotAhead(ins, tbl, e, idx);
    SearchStep(ins.start, ins.key, idx, e.probe);
    WalkPasses(ins, tbl, e, idx);
  }

  lemma SearchingExchanges<K(!new), V>(ins: Insertion<K, V>, tbl: seq<Entry<K, V>>, e: Entry<K, V>, idx: nat)
    requires Searching(ins, Walk(tbl, e, idx)) && idx < |tbl| && tbl[idx].occupied && tbl[idx].key != ins.key && tbl[idx].probe < e.probe
    ensures Searching(ins, Walk(tbl[idx := e], tbl[idx].(probe := e.probe + 1), Next(|tbl|, idx))) && e.probe + 1 < |tbl|
    ensures Occupied(tbl[idx := e]) == Occupied(tbl)
  {
    hide Walking, Search, Home, Find, Next, Occupied;
    SlotAhead(ins, tbl, e, idx);
    SearchStep(ins.start, ins.key, idx, e.probe);
    WalkExchanges(ins, tbl, e, idx);
    OccupiedUpdate(tbl, idx, e);
  }

  lemma SearchingMeets<K(!new), V>(ins: Insertion<K, V>, tbl: seq<Entry<K, V>>, e: Entry<K, V>, idx: nat)
    requires Searching(ins, Walk(tbl, e, idx)) && Holds(tbl, idx, ins.key)
    ensures var tbl' := tbl[idx := tbl[idx].(value := ins.value)];
            Outcome(ins, tbl') && Occupied(tbl') == Occupied(tbl) && Find(ins.start, ins.hash, ins.key).Some?
  {
    hide Walking, Search, Home, Outcome;
    SlotAhead(ins, tbl, e, idx);
    SearchStep(ins.start, ins.key, idx, e.probe);
    WalkMeets(ins, tbl, e, idx);
    OccupiedUpdate(tbl, idx, tbl[idx].(value := ins.value));
  }

  lemma SearchingEnds<K(!new), V>(ins: Insertion<K, V>, tbl: seq<Entry<K, V>>, e: Entry<K, V>, idx: nat)
    requires Searching(ins, Walk(tbl, e, idx)) && idx < |tbl| && !tbl[idx].occupied
    ensures Outcome(ins, tbl[idx := e]) && Occupied(tbl[idx := e]) == Occupied(tbl) + 1 && Find(ins.start, ins.hash, ins.key) == None
  {
    hide Walking, Search, Home, Outcome;
    SlotAhead(ins, tbl, e, idx);
    SearchStep(ins.start, ins.key, idx, e.probe);
    WalkEnds(ins, tbl, e, idx);
    OccupiedUpdate(tbl, idx, e);
  }

  // ---------------------------------------------------------------- rehashing

  /** The entries of the first `n` slots, and nothing else, have been carried over from `c` to `d`. */
  ghost predicate Copied<K(!new), V>(tbl: seq<Entry<K, V>>, n: nat, c: map<K, V>, d: map<K, V>)
    requires n <= |tbl|
  {
    && Distinct(tbl) && Represents(tbl, c)
    && (forall k | k in d :: k in c && d[k] == c[k])
    && (forall p: nat | p < n && tbl[p].occupied :: tbl[p].key in d)
  }

  lemma CopyNext<K(!new), V>(tbl: seq<Entry<K, V>>, n: nat, c: map<K, V>, d: map<K, V>)
    requires n < |tbl| && Copied(tbl, n, c, d)
    ensures Copied(tbl, n + 1, c, if tbl[n].occupied then d[tbl[n].key := tbl[n].value] else d)
  {
  }

  lemma AllCopied<K(!new), V>(tbl: seq<Entry<K, V>>, c: map<K, V>, d: map<K, V>)
    requires Copied(tbl, |tbl|, c, d)
    ensures c == d
  {
    forall k | k in c ensures k in d {
      var p: nat :| Holds(tbl, p, k);
    }
  }

  /** The map without the entry of the last slot. */
  function FrontMap<K, V>(tbl: seq<Entry<K, V>>, m: map<K, V>): map<K, V>
    requires tbl != []
  {
    if tbl[|tbl| - 1].occupied then m - {tbl[|tbl| - 1].key} else m
  }

  lemma FrontRepresents<K(!new), V>(tbl: seq<Entry<K, V>>, m: map<K, V>)
    requires tbl != [] && Distinct(tbl) && Represents(tbl, m)
    ensures Distinct(tbl[..|tbl| - 1]) && Represents(tbl[..|tbl| - 1], FrontMap(tbl, m))
  {
    var front, rest := tbl[..|tbl| - 1], FrontMap(tbl, m);
    assert forall p: nat | p < |front| :: front[p] == tbl[p];
    forall k | k in rest ensures exists p: nat :: Holds(front, p, k) {
      var p: nat :| Holds(tbl, p, k);
      assert Holds(front, p, k);
    }
  }

  lemma FrontSize<K(!new), V>(tbl: seq<Entry<K, V>>, m: map<K, V>)
    requires tbl != [] && Represents(tbl, m)
    ensures |m| == |FrontMap(tbl, m)| + if tbl[|tbl| - 1].occupied then 1 else 0
  {
    var last, rest := tbl[|tbl| - 1], FrontMap(tbl, m);
    if last.occupied {
      hide Represents;
      assert m.Keys == rest.Keys + {last.key};
      assert |m.Keys| == |rest.Keys| + 1;
    }
  }

  /** The number of occupied slots is the size of the map. */
  lemma {:induction false} SizeIsCardinality<K(!new), V>(tbl: seq<Entry<K, V>>, m: map<K, V>)
    requires Distinct(tbl) && Represents(tbl, m)
    ensures |m| == Occupied(tbl)
  {
    if tbl == [] {
      assert forall k | k in m :: exists p: nat :: Holds(tbl, p, k);
      assert m == map[];
    } else {
      FrontRepresents(tbl, m);
      FrontSize(tbl, m);
      hide Distinct, Represents, FrontMap;
      SizeIsCardinality(tbl[..|tbl| - 1], FrontMap(tbl, m));
    }
  }

  // ---------------------------------------------------------------- erasing

  function Emptied<K, V>(tbl: seq<Entry<K, V>>, i: nat): seq<Entry<K, V>>
    requires i < |tbl|
  {
    tbl[i := tbl[i].(occupied := false)]
  }

  /** The path of the entry at `p` runs over slot `i`. */
  predicate Crosses<K, V>(tbl: seq<Entry<K, V>>, hash: K -> nat, p: nat, i: nat)
    requires p < |tbl| && i < |tbl|
  {
    tbl[p].occupied && p != i && Dist(|tbl|, Home(tbl, hash, tbl[p].key), i) < Dist(|tbl|, Home(tbl, hash, tbl[p].key), p)
  }

  /** One lookup after an erasure: a remaining key is lost exactly when its path runs over the emptied slot. */
  lemma ErasedLookup<K(!new), V>(tbl: seq<Entry<K, V>>, hash: K -> nat, i: nat, p: nat)
    requires i < |tbl| && p < |tbl| && p != i && tbl[i].occupied && tbl[p].occupied
    requires Distinct(tbl) && Probing(tbl, hash)
    ensures Find(tbl, hash, tbl[p].key) == Some(p)
    ensures Find(Emptied(tbl, i), hash, tbl[p].key) == if Crosses(tbl, hash, p, i) then None else Some(p)
  {
    var tbl', key := Emptied(tbl, i), tbl[p].key;
    var h := Home(tbl, hash, key);
    assert PathTo(tbl, h, p);
    forall j: nat | j < |tbl| && Dist(|tbl|, h, j) < Dist(|tbl|, h, p) ensures tbl[j].occupied {
      assert Covers(tbl, h, j);
    }
    SearchHits(tbl, key, h, h, p);
    if Crosses(tbl, hash, p, i) {
      SearchMisses(tbl', key, h, h, p, i);
    } else {
      SearchHits(tbl', key, h, h, p);
    }
  }

  /** No remaining entry's path runs over slot `i`. */
  predicate Uncrossed<K, V>(tbl: seq<Entry<K, V>>, hash: K -> nat, i: nat)
    requires i < |tbl|
  {
    forall p: nat | p < |tbl| :: !Crosses(tbl, hash, p, i)
  }

  /** Erasing the key empties a slot that lies on a remaining path. */
  predicate CutsOff<K(==), V>(tbl: seq<Entry<K, V>>, hash: K -> nat, key: K)
    requires tbl != []
  {
    var r := Find(tbl, hash, key);
    r.Some? && !Uncrossed(tbl, hash, r.value)
  }

  lemma CutsOffPresent<K(!new), V>(tbl: seq<Entry<K, V>>, hash: K -> nat, m: map<K, V>, key: K)
    requires tbl != [] && Represents(tbl, m) && CutsOff(tbl, hash, key)
    ensures key in m
  {
  }

  /** `erase` leaves all other lookups as they were exactly when no remaining path runs over the emptied slot. */
  lemma EraseIsSafeIff<K(!new), V>(tbl: seq<Entry<K, V>>, hash: K -> nat, i: nat)
    requires i < |tbl| && tbl[i].occupied && Distinct(tbl) && Probing(tbl, hash)
    ensures Uncrossed(tbl, hash, i) <==> forall k | k != tbl[i].key :: Find(Emptied(tbl, i), hash, k) == Find(tbl, hash, k)
    ensures Find(Emptied(tbl, i), hash, tbl[i].key) == None
  {
    if Uncrossed(tbl, hash, i) {
      forall k | k != tbl[i].key ensures Find(Emptied(tbl, i), hash, k) == Find(tbl, hash, k) {
        UncrossedLookup(tbl, hash, i, k);
      }
    } else {
      var p: nat :| p < |tbl| && Crosses(tbl, hash, p, i);
      ErasedLookup(tbl, hash, i, p);
      assert Find(tbl, hash, tbl[p].key) == Some(p);
    }
    var r := Find(Emptied(tbl, i), hash, tbl[i].key);
    assert r.Some? ==> Holds(Emptied(tbl, i), r.value, tbl[i].key);
  }

  lemma UncrossedLookup<K(!new), V>(tbl: seq<Entry<K, V>>, hash: K -> nat, i: nat, k: K)
    requires i < |tbl| && tbl[i].occupied && k != tbl[i].key
    requires Distinct(tbl) && Probing(tbl, hash) && Uncrossed(tbl, hash, i)
    ensures Find(Emptied(tbl, i), hash, k) == Find(tbl, hash, k)
  {
    var r, r' := Find(tbl, hash, k), Find(Emptied(tbl, i), hash, k);
    assert r.Some? ==> Holds(tbl, r.value, k);
    assert r'.Some? ==> Holds(tbl, r'.value, k);
    if r.Some? { ErasedLookup(tbl, hash, i, r.value); }
    if r'.Some? { ErasedLookup(tbl, hash, i, r'.value); }
  }

  /** The probe invariant, too, survives exactly then. */
  lemma EraseKeepsProbingIff<K, V>(tbl: seq<Entry<K, V>>, hash: K -> nat, i: nat)
    requires i < |tbl| && tbl[i].occupied && Probing(tbl, hash)
    ensures Uncrossed(tbl, hash, i) <==> Probing(Emptied(tbl, i), hash)
  {
    var tbl' := Emptied(tbl, i);
    if Uncrossed(tbl, hash, i) {
      SafeEraseProbing(tbl, hash, i);
    } else {
      var p: nat :| p < |tbl| && Crosses(tbl, hash, p, i);
      var h := Home(tbl', hash, tbl'[p].key);
      assert !Covers(tbl', h, i);
      assert !PathTo(tbl', h, p);
    }
  }

  lemma EraseRepresents<K(!new), V>(tbl: seq<Entry<K, V>>, m: map<K, V>, i: nat)
    requires i < |tbl| && tbl[i].occupied && Distinct(tbl) && Represents(tbl, m)
    ensures Distinct(Emptied(tbl, i)) && Represents(Emptied(tbl, i), m - {tbl[i].key})
  {
    forall k | k in m && k != tbl[i].key ensures exists p: nat :: Holds(Emptied(tbl, i), p, k) {
      var p: nat :| Holds(tbl, p, k);
      assert Holds(Emptied(tbl, i), p, k);
    }
  }

  lemma SafeEraseProbing<K, V>(tbl: seq<Entry<K, V>>, hash: K -> nat, i: nat)
    requires i < |tbl| && Probing(tbl, hash) && forall p: nat | p < |tbl| :: !Crosses(tbl, hash, p, i)
    ensures Probing(Emptied(tbl, i), hash)
  {
    var tbl' := Emptied(tbl, i);
    forall p: nat | p < |tbl'| && tbl'[p].occupied
      ensures var h := Home(tbl', hash, tbl'[p].key); PathTo(tbl', h, p) && Covers(tbl', h, p)
    {
      var h := Home(tbl, hash, tbl[p].key);
      assert PathTo(tbl, h, p) && Covers(tbl, h, p) && !Crosses(tbl, hash, p, i);
      forall j: nat | j < |tbl'| && Dist(|tbl|, h, j) < Dist(|tbl|, h, p) ensures Covers(tbl', h, j) {
        assert Covers(tbl, h, j);
      }
    }
  }

  function Magnitude(k: int): nat { if k < 0 then -k else k }

  function TwoOfOneHome<V>(v: V, w: V): seq<Entry<int, V>> {
    [Entry(0, v, true, 0), Entry(3, w, true, 1), Entry(0, v, false, 0)]
  }

  lemma TwoOfOneHomeProbes<V>(v: V, w: V)
    ensures Distinct(TwoOfOneHome(v, w)) && Probing(TwoOfOneHome(v, w), Magnitude)
  {
    var tbl := TwoOfOneHome(v, w);
    assert Home(tbl, Magnitude, 0) == 0 && Home(tbl, Magnitude, 3) == 0;
    forall p: nat | p < |tbl| && tbl[p].occupied ensures PathTo(tbl, 0, p) && Covers(tbl, 0, p) {
      assert p == 0 || p == 1;
    }
  }

  /** The failing case is real: two keys with one home; erasing the first hides the second. */
  lemma ErasedNeighbourIsLost<V>(v: V, w: V)
    ensures var tbl := TwoOfOneHome(v, w);
            && Distinct(tbl) && Probing(tbl, Magnitude)
            && Holds(Emptied(tbl, 0), 1, 3) && Find(Emptied(tbl, 0), Magnitude, 3) == None
  {
    TwoOfOneHomeProbes(v, w);
    var tbl := TwoOfOneHome(v, w);
    assert Home(tbl, Magnitude, 3) == 0;
    ErasedLookup(tbl, Magnitude, 0, 1);
  }

  /** So is the danger of inserting into such a table: the hidden key would be stored a second time. */
  lemma HiddenKeyIsUnsafe<V>(v: V, w: V)
    ensures var tbl := Emptied(TwoOfOneHome(v, w), 0);
            Represents(tbl, map[3 := w]) && Distinct(tbl) && !SafeToInsert(tbl, Magnitude, map[3 := w], 3)
  {
    TwoOfOneHomeProbes(v, w);
    var tbl := Emptied(TwoOfOneHome(v, w), 0);
    assert Holds(tbl, 1, 3);
    assert Home(tbl, Magnitude, 3) == 0 && !Covers(tbl, 0, 0);
    forall p: nat | Holds(tbl, p, 3) ensures !PathTo(tbl, 0, p) {
      assert p == 1;
    }
  }
}
