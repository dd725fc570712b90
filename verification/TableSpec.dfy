/**
  Open-addressing tables as sequences of entries: what makes such a table a finite map, and
  that placing, overwriting and deleting an entry keeps it one.
 */
module TableSpec {
  import opened Util
  import opened Probe

  /** A key with its hash code, which never changes. */
  datatype Key = Key(name: int, hash: Size)

  datatype Entry<V> = Empty | Deleted | Occupied(key: Key, value: V)

  type Table<V> = seq<Entry<V>>

  // ---------------------------------------------------------------- tables as maps

  /** The n-th slot looked at for k is i, and none before it is empty. */
  ghost predicate OnPath<V>(t: Table<V>, k: Key, i: int, n: nat)
    requires |t| > 0
  {
    && Slot(k.hash, n, |t|) == i
    && forall j: nat :: j < n ==> !t[Slot(k.hash, j, |t|)].Empty?
  }

  ghost predicate Placed<V>(t: Table<V>, i: int)
    requires 0 <= i < |t|
  {
    t[i].Occupied? ==> exists n: nat :: OnPath(t, t[i].key, i, n)
  }

  ghost predicate NoKeyTwice<V>(t: Table<V>) {
    forall i, j :: 0 <= i < j < |t| && t[i].Occupied? && t[j].Occupied? ==> t[i].key != t[j].key
  }

  ghost predicate TableOk<V>(t: Table<V>) {
    NoKeyTwice(t) && forall i :: 0 <= i < |t| ==> Placed(t, i)
  }

  ghost predicate Holds<V>(t: Table<V>, k: Key, v: V) {
    exists i :: 0 <= i < |t| && t[i] == Occupied(k, v)
  }

  /** The table holds exactly the pairs of m. */
  ghost predicate Agrees<V>(t: Table<V>, m: map<Key, V>) {
    && (forall i :: 0 <= i < |t| && t[i].Occupied? ==> t[i].key in m && m[t[i].key] == t[i].value)
    && (forall k :: k in m ==> Holds(t, k, m[k]))
  }

  ghost predicate Absent<V>(t: Table<V>, k: Key) {
    forall i :: 0 <= i < |t| && t[i].Occupied? ==> t[i].key != k
  }

  /** What find promises of the position it returns. */
  ghost predicate Found<V>(t: Table<V>, k: Key, pos: int, occupied: bool) {
    && 0 <= pos < |t|
    && (occupied ==> t[pos].Occupied? && t[pos].key == k)
    && (!occupied ==> !t[pos].Occupied? && Absent(t, k) && exists n: nat :: OnPath(t, k, pos, n))
  }

  /** The first n slots looked at for k are not empty and do not hold k. */
  ghost predicate Passed<V>(t: Table<V>, k: Key, n: nat)
    requires |t| > 0
  {
    forall j: nat :: j < n ==>
      var e := t[Slot(k.hash, j, |t|)];
      !e.Empty? && (e.Occupied? ==> e.key != k)
  }

  /** An empty slot ends the search: k is not in the table. */
  lemma EmptyEndsSearch<V>(t: Table<V>, k: Key, n: nat)
    requires TableOk(t) && |t| > 0 && Passed(t, k, n) && t[Slot(k.hash, n, |t|)].Empty?
    ensures Absent(t, k)
  {
    forall i | 0 <= i < |t| && t[i].Occupied?
      ensures t[i].key != k
    {
      assert Placed(t, i);
    }
  }

  lemma AbsentExactly<V>(t: Table<V>, m: map<Key, V>, k: Key)
    requires Agrees(t, m)
    ensures Absent(t, k) <==> k !in m
  {
    if k in m { assert Holds(t, k, m[k]); }
  }

  /** A table determines its map. */
  lemma AgreesUnique<V>(t: Table<V>, m: map<Key, V>, m': map<Key, V>)
    requires Agrees(t, m) && Agrees(t, m')
    ensures m == m'
  {
    forall k | k in m ensures k in m' && m'[k] == m[k] { assert Holds(t, k, m[k]); }
    forall k | k in m' ensures k in m && m'[k] == m[k] { assert Holds(t, k, m'[k]); }
  }

  // ---------------------------------------------------------------- changing one entry

  /** A step that empties no slot leaves every entry on its path. */
  lemma PathKept<V>(t: Table<V>, pos: int, e: Entry<V>, k: Key, i: int, n: nat)
    requires 0 <= pos < |t| && !e.Empty? && OnPath(t, k, i, n)
    ensures OnPath(t[pos := e], k, i, n)
  {
  }

  lemma PlacedKept<V>(t: Table<V>, pos: int, e: Entry<V>, i: int)
    requires 0 <= pos < |t| && !e.Empty? && 0 <= i < |t| && Placed(t, i) && i != pos
    ensures Placed(t[pos := e], i)
  {
    if t[i].Occupied? {
      var n: nat :| OnPath(t, t[i].key, i, n);
      PathKept(t, pos, e, t[i].key, i, n);
    }
  }

  /** Storing a pair at the position found for its key. */
  lemma StoreOk<V>(t: Table<V>, m: map<Key, V>, k: Key, v: V, pos: int, occupied: bool)
    requires TableOk(t) && Agrees(t, m) && Found(t, k, pos, occupied)
    ensures TableOk(t[pos := Occupied(k, v)]) && Agrees(t[pos := Occupied(k, v)], m[k := v])
  {
    var t' := t[pos := Occupied(k, v)];
    assert Placed(t, pos);
    var n: nat :| OnPath(t, k, pos, n);
    PathKept(t, pos, Occupied(k, v), k, pos, n);
    forall i | 0 <= i < |t'| ensures Placed(t', i) {
      if i != pos {
        assert Placed(t, i);
        PlacedKept(t, pos, Occupied(k, v), i);
      }
    }
    StoreAgrees(t, m, k, v, pos);
  }

  lemma StoreAgrees<V>(t: Table<V>, m: map<Key, V>, k: Key, v: V, pos: int)
    requires Agrees(t, m) && 0 <= pos < |t|
    requires forall i :: 0 <= i < |t| && t[i].Occupied? && i != pos ==> t[i].key != k
    requires t[pos].Occupied? ==> t[pos].key == k
    ensures Agrees(t[pos := Occupied(k, v)], m[k := v])
  {
    var t', m' := t[pos := Occupied(k, v)], m[k := v];
    forall q | q in m' ensures Holds(t', q, m'[q]) {
      if q == k {
        assert t'[pos] == Occupied(k, v);
      } else {
        assert Holds(t, q, m[q]);
        var i :| 0 <= i < |t| && t[i] == Occupied(q, m[q]);
        assert t'[i] == Occupied(q, m[q]);
      }
    }
  }

  /** Deleting the entry of k leaves a tombstone on the paths that go through it. */
  lemma DeleteOk<V>(t: Table<V>, m: map<Key, V>, k: Key, pos: int)
    requires TableOk(t) && Agrees(t, m) && Found(t, k, pos, true)
    ensures TableOk(t[pos := Deleted]) && Agrees(t[pos := Deleted], m - {k})
  {
    var t' := t[pos := Deleted];
    forall i | 0 <= i < |t'| ensures Placed(t', i) {
      if i != pos {
        assert Placed(t, i);
        PlacedKept(t, pos, Deleted, i);
      }
    }
    forall q | q in m - {k} ensures Holds(t', q, (m - {k})[q]) {
      assert Holds(t, q, m[q]);
      var i :| 0 <= i < |t| && t[i] == Occupied(q, m[q]);
      assert t'[i] == Occupied(q, m[q]);
    }
  }

  // ---------------------------------------------------------------- counting

  function NumOccupied<V>(t: Table<V>): nat {
    if t == [] then 0 else NumOccupied(t[..|t| - 1]) + (if t[|t| - 1].Occupied? then 1 else 0)
  }

  function NumDeleted<V>(t: Table<V>): nat {
    if t == [] then 0 else NumDeleted(t[..|t| - 1]) + (if t[|t| - 1].Deleted? then 1 else 0)
  }

  lemma {:induction false} CountStore<V>(t: Table<V>, i: nat, e: Entry<V>)
    requires i < |t|
    ensures NumOccupied(t[i := e]) ==
              NumOccupied(t) - (if t[i].Occupied? then 1 else 0) + (if e.Occupied? then 1 else 0)
    ensures NumDeleted(t[i := e]) ==
              NumDeleted(t) - (if t[i].Deleted? then 1 else 0) + (if e.Deleted? then 1 else 0)
  {
    var t', last := t[i := e], |t| - 1;
    if i == last {
      assert t'[..last] == t[..last];
    } else {
      assert t'[..last] == t[..last][i := e];
      CountStore(t[..last], i, e);
    }
  }

  /** A table with fewer occupied and deleted entries than slots has an empty one. */
  lemma {:induction false} EmptySlot<V>(t: Table<V>) returns (i: nat)
    requires NumOccupied(t) + NumDeleted(t) < |t|
    ensures i < |t| && t[i].Empty?
  {
    if t[|t| - 1].Empty? {
      i := |t| - 1;
    } else {
      i := EmptySlot(t[..|t| - 1]);
    }
  }

  lemma {:induction false} CountBound<V>(t: Table<V>)
    ensures NumOccupied(t) + NumDeleted(t) <= |t|
  {
    if t == [] {
    } else {
      CountBound(t[..|t| - 1]);
    }
  }

  lemma {:induction false} AllEmpty<V>(t: Table<V>)
    requires forall i :: 0 <= i < |t| ==> t[i].Empty?
    ensures TableOk(t) && Agrees(t, map[]) && NumOccupied(t) == 0 && NumDeleted(t) == 0
  {
    if t == [] {
    } else {
      AllEmpty(t[..|t| - 1]);
    }
  }
}
