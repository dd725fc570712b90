/**
  The hash table with open addressing: find, insert, update, remove, clear, reserve and growth,
  which keep the table a finite map.
 */
module HashTable {
  import opened Bits
  import opened Util
  import opened Probe
  import opened TableSpec

  const MAX_CAPACITY := 0x8000_0000_0000_0000   // 2^63

  lemma ThresholdBelow(capacity: nat, factor: nat, product: nat)
    requires 0 < capacity && factor < 100 && product == capacity * factor
    ensures product % SIZE / 100 < capacity
  {
    MulMono(factor, 99, capacity);
    ModAtMost(product, SIZE);
  }

  lemma ModAtMost(a: nat, m: nat)
    requires 0 < m
    ensures 0 <= a % m <= a
  {
    if a < m {
      DivModUnique(a, m, 0, a);
    }
  }

  class HashTable<V> {
    var entries: array<Entry<V>>
    var capacity: Size
    var count: Size
    var deleted: Size
    var threshold: Size
    var loadFactor: Size

    /** The map that the table stands for. */
    ghost var contents: map<Key, V>

    ghost predicate Shape()
      reads this
    {
      && entries.Length == capacity
      && (capacity == 0 || (IsPow2(capacity) && capacity <= MAX_CAPACITY))
      && 0 < loadFactor < 100
      && threshold == capacity * loadFactor % SIZE / 100
    }

    ghost predicate Valid()
      reads this, entries
    {
      && Shape()
      && TableOk(entries[..]) && Agrees(entries[..], contents)
      && count == NumOccupied(entries[..]) && deleted == NumDeleted(entries[..])
    }

    constructor ()
      ensures Valid() && contents == map[] && fresh(entries)
    {
      entries := new Entry<V>[0];
      capacity, count, deleted, threshold, loadFactor := 0, 0, 0, 0, 85;
      contents := map[];
    }

    constructor WithCapacity(initialCapacity: Size, factor: Size)
      requires 0 < initialCapacity <= MAX_CAPACITY && IsPow2(initialCapacity) && 0 < factor < 100
      ensures Valid() && contents == map[] && fresh(entries) && capacity == initialCapacity
    {
      capacity, count, deleted, loadFactor := initialCapacity, 0, 0, factor;
      threshold := initialCapacity * factor % SIZE / 100;
      entries := new Entry<V>[initialCapacity](_ => Empty);
      contents := map[];
      new;
      AllEmpty(entries[..]);
    }

    /** Fewer entries than the threshold leave room, even if the product has wrapped. */
    lemma BelowThreshold()
      requires Shape() && capacity > 0
      ensures threshold < capacity
    {
      ThresholdBelow(capacity, loadFactor, capacity * loadFactor);
    }

    // -------------------------------------------------------------- searching

    /** The probing loop of find: it ends as soon as one slot is empty. */
    static method Search(a: array<Entry<V>>, k: Key) returns (pos: nat, occupied: bool)
      requires IsPow2(a.Length) && a.Length <= MAX_CAPACITY && TableOk(a[..])
      requires NumOccupied(a[..]) + NumDeleted(a[..]) < a.Length
      ensures Found(a[..], k, pos, occupied)
    {
      ghost var t, n: nat := a[..], 0;
      ghost var free := EmptySlot(t);
      ghost var stop := ProbeVisitsAll(k.hash, a.Length, free);
      var index, perturb := k.hash, k.hash;
      var insertPos: int := -1;
      while true
        invariant index == Index(k.hash, n) && perturb == Perturb(k.hash, n) && Passed(t, k, n) && n <= stop
        invariant insertPos >= 0 ==>
          insertPos < |t| && t[insertPos].Deleted? && exists j: nat :: OnPath(t, k, insertPos, j)
        decreases stop - n
      {
        var i := FastModulo(index, a.Length);
        assert OnPath(t, k, i, n);
        if a[i].Empty? {
          EmptyEndsSearch(t, k, n);
          return if insertPos >= 0 then insertPos else i, false;
        } else if a[i].Deleted? && insertPos < 0 {
          insertPos := i;
        } else if a[i].Occupied? && a[i].key == k {
          return i, true;
        }
        index := (5 * index + 1 + perturb) % SIZE;
        perturb := perturb / 32;
        n := n + 1;
      }
    }

    /** The loop of grow_table that finds a place for one of the old entries. */
    static method Reinsert(a: array<Entry<V>>, k: Key, v: V) returns (ghost pos: nat)
      requires IsPow2(a.Length) && a.Length <= MAX_CAPACITY && Absent(a[..], k)
      requires NumOccupied(a[..]) + NumDeleted(a[..]) < a.Length
      modifies a
      ensures Found(old(a[..]), k, pos, false) && old(a[..])[pos].Empty?
      ensures a[..] == old(a[..])[pos := Occupied(k, v)]
    {
      ghost var t, n: nat := a[..], 0;
      ghost var free := EmptySlot(t);
      ghost var stop := ProbeVisitsAll(k.hash, a.Length, free);
      var index, perturb := k.hash, k.hash;
      while true
        invariant index == Index(k.hash, n) && perturb == Perturb(k.hash, n) && n <= stop && a[..] == t
        invariant forall j: nat :: j < n ==> !t[Slot(k.hash, j, |t|)].Empty?
        decreases stop - n
      {
        var i := FastModulo(index, a.Length);
        assert OnPath(t, k, i, n);
        if a[i].Empty? {
          a[i] := Occupied(k, v);
          return i;
        }
        index := (5 * index + 1 + perturb) % SIZE;
        perturb := perturb / 32;
        n := n + 1;
      }
    }

    // -------------------------------------------------------------- growth

    /** The copying loop of grow_table: the occupied entries of the old table, in a table without tombstones. */
    static method Rehash(source: array<Entry<V>>, size: nat) returns (bigger: array<Entry<V>>, ghost m: map<Key, V>)
      requires NoKeyTwice(source[..]) && source.Length < size <= MAX_CAPACITY && IsPow2(size)
      ensures fresh(bigger) && bigger.Length == size && TableOk(bigger[..])
      ensures Agrees(bigger[..], m) && Agrees(source[..], m)
      ensures NumOccupied(bigger[..]) == NumOccupied(source[..]) && NumDeleted(bigger[..]) == 0
    {
      ghost var t := source[..];
      bigger := new Entry<V>[size](_ => Empty);
      AllEmpty(bigger[..]);
      m := map[];
      var i := 0;
      while i < source.Length
        invariant 0 <= i <= |t| && fresh(bigger) && bigger.Length == size && source[..] == t
        invariant Rehashed(t[..i], bigger[..], m)
      {
        ghost var was := bigger[..];
        RoomLeft(t, i, was, m);
        if source[i].Occupied? {
          AbsentExactly(was, m, source[i].key);
          ghost var pos := Reinsert(bigger, source[i].key, source[i].value);
          RehashedOne(t, i, was, m, pos);
          m := m[source[i].key := source[i].value];
        }
        i := i + 1;
      }
      assert t[..i] == t;
    }

    /** grow_table: a table of the least possible size with the same contents and no tombstones. */
    method GrowTable(newCapacity: Size)
      requires Valid() && capacity < newCapacity <= MAX_CAPACITY
      modifies this
      ensures Valid() && contents == old(contents) && fresh(entries) && loadFactor == old(loadFactor)
      ensures capacity >= newCapacity && IsPow2(capacity) && deleted == 0 && count == old(count)
      ensures forall k: nat :: Pow2(k) >= newCapacity ==> Pow2(k) >= capacity
    {
      var size := NextPowerOfTwo(newCapacity);
      SizeBound(newCapacity, size);
      var bigger, m := Rehash(entries, size);
      AgreesUnique(entries[..], m, contents);
      capacity, deleted := size, 0;
      threshold := capacity * loadFactor % SIZE / 100;
      entries := bigger;
    }

    // -------------------------------------------------------------- operations

    /** The growth that find would need is still possible. */
    ghost predicate CanGrow()
      reads this
    {
      count + deleted >= threshold ==> capacity < MAX_CAPACITY
    }

    /** find: the position of k, or one where it can be stored; it moves the whole table if that has become too full. */
    method Find(k: Key) returns (pos: nat, occupied: bool)
      requires Valid() && CanGrow()
      modifies this
      ensures Valid() && contents == old(contents) && count == old(count) && loadFactor == old(loadFactor)
      ensures old(count + deleted < threshold) ==> entries == old(entries) && entries[..] == old(entries[..])
      ensures old(count + deleted >= threshold) ==> fresh(entries) && capacity > old(capacity) && deleted == 0
      ensures count + deleted < capacity && Found(entries[..], k, pos, occupied)
      ensures occupied <==> k in contents
      ensures occupied ==> entries[pos] == Occupied(k, contents[k])
    {
      if count + deleted >= threshold {
        CountBound(entries[..]);
        GrowTable(capacity + 1);
      }
      BelowThreshold();
      pos, occupied := Search(entries, k);
      AbsentExactly(entries[..], contents, k);
    }

    /** update(ref, t): stores at the position found for k. */
    method UpdateAt(pos: nat, ghost occupied: bool, k: Key, v: V)
      requires Valid() && Found(entries[..], k, pos, occupied)
      modifies this, entries
      ensures Valid() && contents == old(contents)[k := v] && entries == old(entries) && capacity == old(capacity)
      ensures entries[pos] == Occupied(k, v)
    {
      ghost var t := entries[..];
      StoreOk(t, contents, k, v, pos, occupied);
      CountStore(t, pos, Occupied(k, v));
      CountBound(t[pos := Occupied(k, v)]);
      if entries[pos].Empty? {
        count := count + 1;
      } else if entries[pos].Deleted? {
        count := count + 1;
        deleted := deleted - 1;
      }
      entries[pos] := Occupied(k, v);
      contents := contents[k := v];
      assert entries[..] == t[pos := Occupied(k, v)];
    }

    /** insert(t): stores v unless k is already there, and returns the value that k has then. */
    method Insert(k: Key, v: V) returns (stored: V)
      requires Valid() && CanGrow()
      modifies this, entries
      ensures Valid() && (entries == old(entries) || fresh(entries))
      ensures contents == if k in old(contents) then old(contents) else old(contents)[k := v]
      ensures stored == contents[k]
    {
      var pos, occupied := Find(k);
      if occupied { return entries[pos].value; }
      UpdateAt(pos, occupied, k, v);
      stored := v;
    }

    /** update(t): stores v, replacing the value that k may have. */
    method Update(k: Key, v: V)
      requires Valid() && CanGrow()
      modifies this, entries
      ensures Valid() && (entries == old(entries) || fresh(entries))
      ensures contents == old(contents)[k := v]
    {
      var pos, occupied := Find(k);
      UpdateAt(pos, occupied, k, v);
    }

    /** remove(t): leaves a tombstone in place of k. */
    method Remove(k: Key)
      requires Valid() && CanGrow()
      modifies this, entries
      ensures Valid() && (entries == old(entries) || fresh(entries))
      ensures contents == old(contents) - {k}
    {
      var pos, occupied := Find(k);
      if occupied {
        ghost var t := entries[..];
        DeleteOk(t, contents, k, pos);
        CountStore(t, pos, Deleted);
        CountBound(t[pos := Deleted]);
        entries[pos] := Deleted;
        count := count - 1;
        deleted := deleted + 1;
        contents := contents - {k};
        assert entries[..] == t[pos := Deleted];
      }
    }

    method Clear()
      requires Valid()
      modifies this, entries
      ensures Valid() && contents == map[] && entries == old(entries) && capacity == old(capacity) && deleted == 0
    {
      count, deleted := 0, 0;
      var i := 0;
      while i < entries.Length
        invariant 0 <= i <= entries.Length && Shape() && entries == old(entries) && capacity == old(capacity)
        invariant count == 0 && deleted == 0 && forall j :: 0 <= j < i ==> entries[j].Empty?
      {
        entries[i] := Empty;
        i := i + 1;
      }
      AllEmpty(entries[..]);
      contents := map[];
    }

    method Reserve(n: Size)
      requires Valid() && n <= MAX_CAPACITY
      modifies this
      ensures Valid() && contents == old(contents) && capacity >= n
      ensures entries == old(entries) || fresh(entries)
      ensures n <= old(capacity) ==> entries == old(entries) && capacity == old(capacity)
      ensures n > old(capacity) ==> forall k: nat :: Pow2(k) >= n ==> Pow2(k) >= capacity
    {
      if n <= capacity { return; }
      GrowTable(n);
    }

    method SetLoadFactor(factor: Size)
      requires Valid() && 0 < factor < 100
      modifies this
      ensures Valid() && contents == old(contents) && entries == old(entries) && loadFactor == factor
    {
      loadFactor := factor;
      threshold := capacity * loadFactor % SIZE / 100;
    }
  }

  lemma SizeBound(n: Size, r: Size)
    requires n <= MAX_CAPACITY && forall k: nat :: Pow2(k) >= n ==> Pow2(k) >= r
    ensures r <= MAX_CAPACITY
  {
    Pow2Values();
    Pow2Add(32, 31);
    assert Pow2(63) >= n;
  }

  /** The table r holds what the prefix p of the old table holds. */
  ghost predicate Rehashed<V>(p: Table<V>, r: Table<V>, m: map<Key, V>) {
    TableOk(r) && Agrees(r, m) && Agrees(p, m) && NumOccupied(r) == NumOccupied(p) && NumDeleted(r) == 0
  }

  /** There is an empty slot for the next entry; entries that are not occupied are left behind. */
  lemma RoomLeft<V>(t: Table<V>, i: nat, r: Table<V>, m: map<Key, V>)
    requires NoKeyTwice(t) && i < |t| < |r| && Rehashed(t[..i], r, m)
    ensures NumOccupied(r) + NumDeleted(r) < |r|
    ensures t[i].Occupied? ==> t[i].key !in m
    ensures !t[i].Occupied? ==> Rehashed(t[..i + 1], r, m)
  {
    assert t[..i + 1][..i] == t[..i];
    CountBound(t[..i]);
    PrefixStep(t, i, m);
  }

  lemma RehashedOne<V>(t: Table<V>, i: nat, r: Table<V>, m: map<Key, V>, pos: nat)
    requires NoKeyTwice(t) && i < |t| && Rehashed(t[..i], r, m) && t[i].Occupied?
    requires Found(r, t[i].key, pos, false) && r[pos].Empty?
    ensures Rehashed(t[..i + 1], r[pos := t[i]], m[t[i].key := t[i].value])
  {
    assert t[..i + 1][..i] == t[..i];
    PrefixStep(t, i, m);
    StoreOk(r, m, t[i].key, t[i].value, pos, false);
    CountStore(r, pos, t[i]);
  }

  /** The map of a prefix of a table, extended by one entry. */
  lemma PrefixStep<V>(t: Table<V>, i: nat, m: map<Key, V>)
    requires NoKeyTwice(t) && i < |t| && Agrees(t[..i], m)
    ensures t[i].Occupied? ==> t[i].key !in m && Agrees(t[..i + 1], m[t[i].key := t[i].value])
    ensures !t[i].Occupied? ==> Agrees(t[..i + 1], m)
  {
    var p, q := t[..i], t[..i + 1];
    if t[i].Occupied? { AbsentExactly(p, m, t[i].key); }
    var m' := if t[i].Occupied? then m[t[i].key := t[i].value] else m;
    forall k | k in m' ensures Holds(q, k, m'[k]) {
      if t[i].Occupied? && k == t[i].key {
        assert q[i] == Occupied(k, m'[k]);
      } else {
        assert Holds(p, k, m[k]);
        var j :| 0 <= j < |p| && p[j] == Occupied(k, m[k]);
        assert q[j] == Occupied(k, m[k]);
      }
    }
  }
}
