/** The Robin Hood hash map, updated in place, proved against a finite map. */
module RobinHoodHashTables {
  import opened Wrappers
  import opened RobinHoodTable

  datatype Op<+K, +V> = Insert(key: K, value: V) | Lookup(key: K) | Erase(key: K) | Clear

  datatype Answer<+V> = Inserted(isNew: bool) | Found(value: Option<V>) | Erased(present: bool) | Cleared

  function AfterOne<K, V>(m: map<K, V>, op: Op<K, V>): map<K, V> {
    match op
    case Insert(k, v) => m[k := v]
    case Lookup(_) => m
    case Erase(k) => m - {k}
    case Clear => map[]
  }

  /** The finite map that a history of operations leaves behind. */
  function After<K, V>(ops: seq<Op<K, V>>): map<K, V> {
    if ops == [] then map[] else AfterOne(After(ops[..|ops| - 1]), ops[|ops| - 1])
  }

  function Reply<K, V>(m: map<K, V>, op: Op<K, V>): Answer<V> {
    match op
    case Insert(k, _) => Inserted(k !in m)
    case Lookup(k) => Found(if k in m then Some(m[k]) else None)
    case Erase(k) => Erased(k in m)
    case Clear => Cleared
  }

  class RobinHoodHashTable<K(!new, ==), V> {
    const hash: K -> nat
    const blank: Entry<K, V>
    var table: seq<Entry<K, V>>
    var numElements: nat
    var capacity: nat
    /** The map that the table stands for. */
    ghost var contents: map<K, V>

    /** What every operation keeps, erasures included. */
    ghost predicate Sound()
      reads this
    {
      Sized(numElements) && Distinct(table) && Represents(table, contents)
    }

    predicate Sized(n: nat)
      reads this
    {
      !blank.occupied && 0 < capacity == |table| && n == Occupied(table)
    }

    ghost predicate Valid()
      reads this
    {
      Sound() && Probing(table, hash)
    }

    /** The load factor 0.7 is exceeded. */
    predicate Overloaded()
      reads this
    {
      10 * numElements > 7 * capacity
    }

    /** The table is usable exactly when it has a slot: with none, every operation divides by zero. */
    constructor (initialCapacity: nat, hash: K -> nat, blank: Entry<K, V>)
      requires !blank.occupied
      ensures contents == map[] && capacity == initialCapacity && this.hash == hash
      ensures Valid() <==> 0 < initialCapacity
    {
      this.hash, this.blank := hash, blank;
      table := seq(initialCapacity, _ => blank);
      numElements, capacity, contents := 0, initialCapacity, map[];
      new;
      NoneOccupied(table);
    }

    /** `insert`, on any sound table, whatever was erased before.  The table then stands for the map with the pair
        exactly when it has just grown or the key's walk is not cut off: an over-full table is repaired first.  The
        answer says whether the search finds the key, and the table doubles exactly when the load factor is exceeded. */
    method Insert(key: K, value: V) returns (isNew: bool)
      requires Sound()
      modifies this
      ensures Sized(numElements) && contents == old(contents)[key := value]
      ensures Sound() <==> old(Overloaded() || SafeToInsert(table, hash, contents, key))
      ensures old(Overloaded() || Valid()) ==> Valid()
      ensures isNew <==> if old(Overloaded() || Valid()) then key !in old(contents) else old(RobinHoodTable.Find(table, hash, key)) == None
      ensures capacity == if old(Overloaded()) then 2 * old(capacity) else old(capacity)
      ensures !old(Overloaded()) ==> numElements <= old(numElements) + 1
      decreases if Overloaded() then 2 else 0
    {
      hide Distinct, Represents, Probing, Occupied, Search;
      if Overloaded() { Rehash(); }
      if Valid() {
        ProbingIsSafe(table, hash, contents, key);
        FindIsLookup(table, hash, contents, key);
      }
      hide SafeToInsert;
      isNew := Probe(key, value);
    }

    /** An insertion starts at the key's home. */
    lemma Begin(key: K, value: V) returns (ins: Insertion<K, V>)
      requires Sound() && numElements < capacity
      ensures ins.start == table && ins.hash == hash && ins.contents == contents && ins.key == key && ins.value == value
      ensures Searching(ins, Walk(table, Entry(key, value, true, 0), hash(key) % capacity))
    {
      var f := FreeSlot(table);
      var at: nat := 0;
      if key in contents { at :| Holds(table, at, key); }
      ins := Insertion(table, hash, contents, key, value, f, at);
      SearchingStarts(ins);
    }

    /** The probe loop of `insert`; there is a free slot, so it ends before it has gone round. */
    method Probe(key: K, value: V) returns (isNew: bool)
      requires Sound() && numElements < capacity
      modifies this`table, this`numElements, this`contents
      ensures Sized(numElements) && contents == old(contents)[key := value]
      ensures Sound() <==> old(SafeToInsert(table, hash, contents, key))
      ensures old(Valid()) ==> Valid()
      ensures isNew <==> old(RobinHoodTable.Find(table, hash, key)) == None
      ensures numElements == old(numElements) + if isNew then 1 else 0
    {
      hide Searching, Occupied, Distinct, Represents, Probing, Home;
      if Valid() { ProbingIsSafe(table, hash, contents, key); }
      ghost var ins := Begin(key, value);
      var idx: nat := hash(key) % capacity;
      var entry := Entry(key, value, true, 0);
      while table[idx].occupied
        invariant Sized(numElements) && idx < capacity && entry.probe < capacity && numElements == old(numElements)
        invariant Searching(ins, Walk(table, entry, idx)) && contents == old(contents)
        decreases capacity - entry.probe
      {
        if table[idx].key == key {
          SearchingMeets(ins, table, entry, idx);
          table := table[idx := table[idx].(value := value)];
          contents := contents[key := value];
          return false;
        }
        entry := PassOrExchange(ins, entry, idx);
        NextSlot(capacity, idx);
        idx := (idx + 1) % capacity;
      }
      SearchingEnds(ins, table, entry, idx);
      table := table[idx := entry];
      numElements := numElements + 1;
      contents := contents[key := value];
      isNew := true;
    }

    /** One turn of the loop: the entry in hand passes the one in the slot, or changes places with it. */
    method PassOrExchange(ghost ins: Insertion<K, V>, entry: Entry<K, V>, idx: nat) returns (next: Entry<K, V>)
      requires Sized(numElements) && idx < capacity && Searching(ins, Walk(table, entry, idx))
      requires table[idx].occupied && table[idx].key != ins.key
      modifies this`table
      ensures Sized(numElements) && Searching(ins, Walk(table, next, Next(capacity, idx))) && next.probe == entry.probe + 1 < capacity
    {
      hide Searching, Occupied, Next;
      next := entry;
      if table[idx].probe < entry.probe {
        SearchingExchanges(ins, table, entry, idx);
        next := table[idx];
        table := table[idx := entry];
      } else {
        SearchingPasses(ins, table, entry, idx);
      }
      next := next.(probe := entry.probe + 1);
    }

    /** `rehash`, on any sound table: twice the capacity and the same map, with the probe invariant, so keys that an
        erasure had cut off are found again; no insertion it makes is over the load factor. */
    method Rehash()
      requires Sound()
      modifies this
      ensures Valid() && contents == old(contents) && capacity == 2 * old(capacity) && !Overloaded()
      decreases 1
    {
      var oldTable := table;
      ghost var c := contents;
      capacity := capacity * 2;
      table := seq(capacity, _ => blank);
      numElements := 0;
      contents := map[];
      NoneOccupied(table);
      assert Copied(oldTable, 0, c, contents) && Valid();
      hide Copied, Distinct, Represents, Probing, Occupied;
      for i := 0 to |oldTable|
        invariant Valid() && capacity == 2 * |oldTable| && numElements <= i
        invariant Copied(oldTable, i, c, contents)
      {
        CopyNext(oldTable, i, c, contents);
        if oldTable[i].occupied {
          var _ := Insert(oldTable[i].key, oldTable[i].value);
        }
      }
      AllCopied(oldTable, c, contents);
    }

    /** `find`, on any table: it is the search function, and on a valid one the lookup of the map. */
    method Find(key: K) returns (value: Option<V>)
      requires Sound()
      ensures var r := RobinHoodTable.Find(table, hash, key);
              value == if r.Some? then Some(table[r.value].value) else None
      ensures Valid() ==> value == if key in contents then Some(contents[key]) else None
    {
      if Valid() { FindIsLookup(table, hash, contents, key); }
      var p := Locate(key);
      value := if p.Some? then Some(table[p.value].value) else None;
    }

    /** The search loop shared by `find` and `erase`. */
    method Locate(key: K) returns (slot: Option<nat>)
      requires Sound()
      ensures slot == RobinHoodTable.Find(table, hash, key)
    {
      var idx: nat := hash(key) % capacity;
      var probeDist := 0;
      while table[idx].occupied
        invariant idx < capacity && probeDist <= capacity
        invariant RobinHoodTable.Find(table, hash, key) == Search(table, key, idx, probeDist)
        decreases capacity - probeDist
      {
        if table[idx].key == key { return Some(idx); }
        NextSlot(capacity, idx);
        idx := (idx + 1) % capacity;
        probeDist := probeDist + 1;
        if probeDist > capacity { break; }
      }
      slot := None;
    }

    /** `erase`: it empties the slot it finds and shifts nothing back.  The map loses that key only; the
        table stays usable for every other key exactly when no remaining path runs over the slot. */
    method Erase(key: K) returns (erased: bool)
      requires Sound()
      modifies this
      ensures Sound() && capacity == old(capacity)
      ensures erased <==> old(RobinHoodTable.Find(table, hash, key)).Some?
      ensures !erased ==> table == old(table) && contents == old(contents)
      ensures erased ==> contents == old(contents) - {key}
      ensures erased ==> var i := old(RobinHoodTable.Find(table, hash, key)).value;
                && table == Emptied(old(table), i)
                && (old(Valid()) ==> (Valid() <==> Uncrossed(old(table), hash, i)))
    {
      hide Distinct, Represents, Probing, Occupied, Uncrossed, Search;
      var p := Locate(key);
      if p == None { return false; }
      var i := p.value;
      EraseRepresents(table, contents, i);
      if Valid() { EraseKeepsProbingIff(table, hash, i); }
      OccupiedUpdate(table, i, table[i].(occupied := false));
      table := table[i := table[i].(occupied := false)];
      numElements := numElements - 1;
      contents := contents - {key};
      erased := true;
    }

    method ClearAll()
      requires Sound()
      modifies this
      ensures Valid() && contents == map[] && capacity == old(capacity)
    {
      table := seq(capacity, _ => blank);
      numElements, contents := 0, map[];
      NoneOccupied(table);
    }

    /** One operation on a valid table, answered as the finite map does.  Only an erasure whose slot lies on a
        remaining path leaves a table that is not valid. */
    method Apply(op: Op<K, V>) returns (answer: Answer<V>)
      requires Valid()
      modifies this
      ensures Sound() && contents == AfterOne(old(contents), op) && answer == Reply(old(contents), op)
      ensures Valid() <==> !(op.Erase? && old(CutsOff(table, hash, op.key)))
    {
      hide Distinct, Represents, Probing, Occupied, Search;
      match op {
        case Insert(k, v) =>
          var isNew := Insert(k, v);
          answer := Inserted(isNew);
        case Lookup(k) =>
          var value := Find(k);
          answer := Found(value);
        case Erase(k) =>
          FindIsLookup(table, hash, contents, k);
          var present := Erase(k);
          answer := Erased(present);
        case Clear =>
          ClearAll();
          answer := Cleared;
      }
    }

    /** The answers so far are those of the finite map. */
    static ghost predicate Answered(ops: seq<Op<K, V>>, answers: seq<Answer<V>>) {
      |answers| <= |ops| && forall i | 0 <= i < |answers| :: answers[i] == Reply(After(ops[..i]), ops[i])
    }

    static lemma AnsweredNext(ops: seq<Op<K, V>>, answers: seq<Answer<V>>, answer: Answer<V>)
      requires Answered(ops, answers) && |answers| < |ops| && answer == Reply(After(ops[..|answers|]), ops[|answers|])
      ensures Answered(ops, answers + [answer])
      ensures After(ops[..|answers| + 1]) == AfterOne(After(ops[..|answers|]), ops[|answers|])
    {
      assert ops[..|answers| + 1][..|answers|] == ops[..|answers|];
    }

    /** Over every history the table answers as the finite map does, up to and including the first erasure that
        cuts off another key; without such an erasure, to the end. */
    method Replay(ops: seq<Op<K, V>>) returns (answers: seq<Answer<V>>)
      requires Valid() && contents == map[]
      modifies this
      ensures Answered(ops, answers) && Sound() && contents == After(ops[..|answers|])
      ensures |answers| < |ops| ==> !Valid()
      ensures !Valid() ==> answers != [] && ops[|answers| - 1].Erase? && ops[|answers| - 1].key in After(ops[..|answers| - 1])
    {
      answers := [];
      assert Answered(ops, answers) && contents == After(ops[..|answers|]);
      hide Distinct, Represents, Probing, Occupied, AfterOne, CutsOff, Reply, Answered;
      while |answers| < |ops|
        invariant |answers| <= |ops| && Answered(ops, answers) && Valid() && contents == After(ops[..|answers|])
      {
        var op := ops[|answers|];
        var cutsOff := op.Erase? && CutsOff(table, hash, op.key);
        if cutsOff { CutsOffPresent(table, hash, contents, op.key); }
        var answer := Apply(op);
        AnsweredNext(ops, answers, answer);
        answers := answers + [answer];
        if cutsOff { return; }
      }
    }
  }
}
