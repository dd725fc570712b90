/**
  The hash table from objects to lock records: an array of chains that are linked through the
  records.  It is a partial function from objects to records, which lookup, growth and removal
  keep.  Records are named by their addresses, and each field of the records is a map.
 */
module LockHashtable {
  import M = MonitorModel

  /** An object with its hash code. */
  datatype Object = Object(id: int, hash: nat)

  type Record = int

  const NULL: Record := 0

  type Chain = seq<Record>

  /** lr->object and lr->hashlink of the lock records. */
  datatype Records = Records(obj: map<Record, Object>, hashlink: map<Record, Record>)

  // ---------------------------------------------------------------- chains

  ghost predicate Distinct(c: Chain) { forall i, j :: 0 <= i < j < |c| ==> c[i] != c[j] }

  /** The record at index i of the chain, or NULL after its end. */
  ghost function At(c: Chain, i: int): Record
    requires 0 <= i <= |c|
  {
    if i < |c| then c[i] else NULL
  }

  /** The slot of an object in a table of the given size. */
  function Home(o: Object, size: nat): nat
    requires size > 0
  {
    o.hash % size
  }

  /** c starts at head and follows the links. */
  ghost predicate Linked(c: Chain, head: Record, hashlink: map<Record, Record>) {
    && Distinct(c) && head == At(c, 0) && NULL !in c
    && (forall i {:trigger hashlink[c[i]]} {:trigger c[i] in hashlink} ::
          0 <= i < |c| ==> c[i] in hashlink && hashlink[c[i]] == At(c, i + 1))
  }

  /** c holds only records of the set, and only those whose home is slot s. */
  ghost predicate InPlace(c: Chain, s: int, size: nat, obj: map<Record, Object>, all: set<Record>)
    requires size > 0
  {
    forall r :: r in c ==> r in all && r in obj && Home(obj[r], size) == s
  }

  /** Every record of the set is in the chain of its home slot, and nowhere else. */
  ghost predicate TableOk(ptr: seq<Record>, recs: Records, chains: seq<Chain>, all: set<Record>) {
    && |ptr| == |chains| > 0
    && (forall s :: 0 <= s < |ptr| ==> Linked(chains[s], ptr[s], recs.hashlink))
    && (forall s :: 0 <= s < |ptr| ==> InPlace(chains[s], s, |ptr|, recs.obj, all))
    && (forall r :: r in all ==> r in recs.obj && r in chains[Home(recs.obj[r], |ptr|)])
  }

  lemma AtHome(ptr: seq<Record>, recs: Records, chains: seq<Chain>, all: set<Record>, r: Record)
    requires TableOk(ptr, recs, chains, all) && r in all
    ensures r in recs.obj && r in chains[Home(recs.obj[r], |ptr|)] && r != NULL
  {
    var s := Home(recs.obj[r], |ptr|);
    assert Linked(chains[s], ptr[s], recs.hashlink);
  }

  /** m takes the object of every record to the record. */
  ghost predicate Inverse(m: map<Object, Record>, obj: map<Record, Object>) {
    && (forall r :: r in obj ==> obj[r] in m && m[obj[r]] == r)
    && (forall o :: o in m ==> m[o] in obj && obj[m[o]] == o)
  }

  // ---------------------------------------------------------------- pushing and cutting

  /** Links that c does not use may change. */
  lemma LinkedKept(c: Chain, head: Record, hashlink: map<Record, Record>, r: Record, n: Record)
    requires Linked(c, head, hashlink) && r !in c
    ensures Linked(c, head, hashlink[r := n])
  {
    assert forall i :: 0 <= i < |c| ==> c[i] in c;
  }

  lemma LinkedPush(c: Chain, head: Record, hashlink: map<Record, Record>, r: Record)
    requires Linked(c, head, hashlink) && r !in c && r != NULL
    ensures Linked([r] + c, r, hashlink[r := head])
  {
    var d := [r] + c;
    assert forall i :: 0 <= i < |c| ==> c[i] in c;
    forall i | 0 <= i < |d| ensures d[i] in hashlink[r := head] && hashlink[r := head][d[i]] == At(d, i + 1) {
      if i > 0 { assert d[i] == c[i - 1] && hashlink[c[i - 1]] == At(c, i); }
    }
    forall q | q in d ensures q == r || q in c {}
  }

  /** The record r, whose object is o, becomes the head of its chain. */
  lemma PushOk(ptr: seq<Record>, recs: Records, chains: seq<Chain>, all: set<Record>, r: Record, o: Object)
    requires TableOk(ptr, recs, chains, all) && r !in all && r != NULL
    ensures var s := Home(o, |ptr|);
            TableOk(ptr[s := r], Records(recs.obj[r := o], recs.hashlink[r := ptr[s]]),
                    chains[s := [r] + chains[s]], all + {r})
  {
    var size, home := |ptr|, Home(o, |ptr|);
    var ptr', chains' := ptr[home := r], chains[home := [r] + chains[home]];
    var obj', link' := recs.obj[r := o], recs.hashlink[r := ptr[home]];
    forall s | 0 <= s < size
      ensures Linked(chains'[s], ptr'[s], link') && InPlace(chains'[s], s, size, obj', all + {r})
    {
      assert Linked(chains[s], ptr[s], recs.hashlink) && InPlace(chains[s], s, size, recs.obj, all);
      if s == home {
        LinkedPush(chains[s], ptr[s], recs.hashlink, r);
        forall q | q in [r] + chains[s] ensures q == r || q in chains[s] {}
      } else {
        LinkedKept(chains[s], ptr[s], recs.hashlink, r, ptr[home]);
      }
    }
    forall q | q in all + {r} ensures q in obj' && q in chains'[Home(obj'[q], size)] {
      if q == r { assert ([r] + chains[home])[0] == r; } else { assert q in chains[Home(recs.obj[q], size)]; }
    }
  }

  /** The links after taking out the k-th record of a chain. */
  ghost function CutLinks(hashlink: map<Record, Record>, c: Chain, k: nat): map<Record, Record>
    requires k < |c| && c[k] in hashlink
  {
    if k == 0 then hashlink else hashlink[c[k - 1] := hashlink[c[k]]]
  }

  lemma LinkedCut(c: Chain, head: Record, hashlink: map<Record, Record>, k: nat)
    requires Linked(c, head, hashlink) && k < |c|
    ensures Linked(c[..k] + c[k + 1..], if k == 0 then hashlink[c[0]] else head, CutLinks(hashlink, c, k))
  {
    var d, h := c[..k] + c[k + 1..], CutLinks(hashlink, c, k);
    forall i | 0 <= i < |d| ensures d[i] in h && h[d[i]] == At(d, i + 1) {
      if i < k {
        assert d[i] == c[i] && hashlink[c[i]] == At(c, i + 1) && hashlink[c[k]] == At(c, k + 1);
      } else {
        assert d[i] == c[i + 1] && hashlink[c[i + 1]] == At(c, i + 2);
      }
    }
    assert hashlink[c[0]] == At(c, 1);
  }

  lemma CutOk(ptr: seq<Record>, recs: Records, chains: seq<Chain>, all: set<Record>, home: nat, k: nat)
    requires TableOk(ptr, recs, chains, all) && home < |chains| && k < |chains[home]|
    requires chains[home][k] in recs.hashlink
    ensures var c, r := chains[home], chains[home][k];
            TableOk(if k == 0 then ptr[home := recs.hashlink[r]] else ptr,
                    Records(recs.obj - {r}, CutLinks(recs.hashlink, c, k)),
                    chains[home := c[..k] + c[k + 1..]], all - {r})
  {
    var size, c, r := |ptr|, chains[home], chains[home][k];
    var d, h := c[..k] + c[k + 1..], CutLinks(recs.hashlink, c, k);
    var ptr', chains' := if k == 0 then ptr[home := recs.hashlink[r]] else ptr, chains[home := d];
    assert Linked(c, ptr[home], recs.hashlink) && InPlace(c, home, size, recs.obj, all);
    forall s | 0 <= s < size
      ensures Linked(chains'[s], ptr'[s], h) && InPlace(chains'[s], s, size, recs.obj - {r}, all - {r})
    {
      assert Linked(chains[s], ptr[s], recs.hashlink) && InPlace(chains[s], s, size, recs.obj, all);
      if s == home {
        LinkedCut(c, ptr[s], recs.hashlink, k);
        assert forall i :: 0 <= i < |d| ==> d[i] == c[if i < k then i else i + 1];
      } else if k > 0 {
        assert c[k - 1] in c;
        LinkedKept(chains[s], ptr[s], recs.hashlink, c[k - 1], recs.hashlink[r]);
      }
    }
    forall q | q in all - {r} ensures q in recs.obj - {r} && q in chains'[Home((recs.obj - {r})[q], size)] {
      assert q in chains[Home(recs.obj[q], size)];
      if Home(recs.obj[q], size) == home { StillIn(c, k, d, q); }
    }
  }

  lemma StillIn(c: Chain, k: nat, d: Chain, q: Record)
    requires k < |c| && d == c[..k] + c[k + 1..] && q in c && q != c[k]
    ensures q in d
  {
    var j :| 0 <= j < |c| && c[j] == q;
    assert d[if j < k then j else j - 1] == q;
  }

  lemma Entered(m: map<Object, Record>, obj: map<Record, Object>, o: Object, r: Record)
    requires Inverse(m, obj) && o !in m && r !in obj
    ensures Inverse(m[o := r], obj[r := o]) && |m[o := r]| == |m| + 1 && obj[r := o].Keys == obj.Keys + {r}
  {
  }

  lemma Left(m: map<Object, Record>, obj: map<Record, Object>, o: Object, r: Record)
    requires Inverse(m, obj) && o in m && m[o] == r
    ensures Inverse(m - {o}, obj - {r}) && |m - {o}| == |m| - 1 && (obj - {r}).Keys == obj.Keys - {r}
  {
    assert m == (m - {o})[o := r];
  }

  // ---------------------------------------------------------------- growth

  /** A record that has its object already is pushed. */
  lemma PushSame(ptr: seq<Record>, recs: Records, chains: seq<Chain>, all: set<Record>, moved: set<Record>, r: Record)
    requires TableOk(ptr, recs, chains, all + moved) && r !in all + moved && r != NULL && r in recs.obj
    ensures var s := Home(recs.obj[r], |ptr|);
            TableOk(ptr[s := r], recs.(hashlink := recs.hashlink[r := ptr[s]]),
                    chains[s := [r] + chains[s]], all + (moved + {r}))
  {
    PushOk(ptr, recs, chains, all + moved, r, recs.obj[r]);
    assert recs.obj[r := recs.obj[r]] == recs.obj && all + (moved + {r}) == all + moved + {r};
  }

  /** The inner loop of lock_hashtable_grow: the records of one old chain are relinked into the new table. */
  method MoveChain(first: Record, table: seq<Record>, records: Records,
                   ghost c: Chain, ghost chains: seq<Chain>, ghost all: set<Record>)
      returns (newtable: seq<Record>, recs: Records, ghost nc: seq<Chain>)
    requires TableOk(table, records, chains, all) && Linked(c, first, records.hashlink)
    requires forall r :: r in c ==> r !in all && r in records.obj
    ensures TableOk(newtable, recs, nc, all + (set r | r in c)) && |newtable| == |table| && recs.obj == records.obj
    ensures forall r :: r in records.hashlink && r !in c ==>
              r in recs.hashlink && recs.hashlink[r] == records.hashlink[r]
  {
    newtable, recs, nc := table, records, chains;
    var lr := first;
    ghost var k, moved: set<Record> := 0, {};
    while lr != NULL
      invariant 0 <= k <= |c| && lr == At(c, k) && |newtable| == |table| && recs.obj == records.obj
      invariant moved == (set r | r in c[..k]) && TableOk(newtable, recs, nc, all + moved)
      invariant forall r :: r in records.hashlink && r !in moved ==>
                  r in recs.hashlink && recs.hashlink[r] == records.hashlink[r]
      decreases |c| - k
    {
      assert c[..k + 1] == c[..k] + [lr] && lr in c && lr !in c[..k];
      assert records.hashlink[c[k]] == At(c, k + 1);
      var next := recs.hashlink[lr];
      var newslot := Home(recs.obj[lr], |newtable|);
      PushSame(newtable, recs, nc, all, moved, lr);
      nc := nc[newslot := [lr] + nc[newslot]];
      recs := recs.(hashlink := recs.hashlink[lr := newtable[newslot]]);
      newtable := newtable[newslot := lr];
      moved := moved + {lr};
      lr, k := next, k + 1;
    }
    assert c[..k] == c;
  }

  /** The outer loop: every record of the old table is relinked exactly once. */
  method MoveAll(ptr: seq<Record>, newsize: nat, records: Records, ghost chains: seq<Chain>, ghost all: set<Record>)
      returns (newtable: seq<Record>, recs: Records, ghost nc: seq<Chain>)
    requires TableOk(ptr, records, chains, all) && newsize > 0
    ensures TableOk(newtable, recs, nc, all) && |newtable| == newsize && recs.obj == records.obj
  {
    newtable, recs, nc := seq(newsize, _ => NULL), records, seq(newsize, _ => []);
    ghost var done: set<Record> := {};
    assert TableOk(newtable, recs, nc, done);
    var i := 0;
    while i < |ptr|
      invariant 0 <= i <= |ptr| && TableOk(newtable, recs, nc, done) && |newtable| == newsize && recs.obj == records.obj
      invariant done <= all && forall r :: r in done ==> Home(records.obj[r], |ptr|) < i
      invariant forall s, r :: 0 <= s < i && r in chains[s] ==> r in done
      invariant forall s :: i <= s < |ptr| ==> Linked(chains[s], ptr[s], recs.hashlink)
    {
      ghost var c := chains[i];
      assert InPlace(c, i, |ptr|, records.obj, all) && Linked(c, ptr[i], recs.hashlink);
      ghost var before := recs.hashlink;
      newtable, recs, nc := MoveChain(ptr[i], newtable, recs, c, nc, done);
      forall s | i < s < |ptr| ensures Linked(chains[s], ptr[s], recs.hashlink) {
        assert InPlace(chains[s], s, |ptr|, records.obj, all);
        LinksSame(chains[s], ptr[s], before, recs.hashlink);
      }
      done := done + (set r | r in c);
      i := i + 1;
    }
    forall r | r in all ensures r in done {
      var s := Home(records.obj[r], |ptr|);
      assert 0 <= s < i && r in chains[s];
    }
    assert done == all;
  }

  lemma LinksSame(c: Chain, head: Record, links: map<Record, Record>, links': map<Record, Record>)
    requires Linked(c, head, links)
    requires forall r :: r in c && r in links ==> r in links' && links'[r] == links[r]
    ensures Linked(c, head, links')
  {
    assert forall i :: 0 <= i < |c| ==> c[i] in c;
  }

  // ---------------------------------------------------------------- the table

  class LockHashtable {
    var size: nat
    var entries: int
    var ptr: seq<Record>
    var recs: Records

    ghost var chains: seq<Chain>

    /** The lock record of every object that has one. */
    ghost var table: map<Object, Record>

    ghost predicate Valid()
      reads this
    {
      |ptr| == size && TableOk(ptr, recs, chains, recs.obj.Keys) && Inverse(table, recs.obj) && entries == |table|
    }

    constructor ()
      ensures Valid() && table == map[] && size == 1613
    {
      size, entries := 1613, 0;
      ptr, recs := seq(1613, _ => NULL), Records(map[], map[]);
      chains, table := seq(1613, _ => []), map[];
    }

    /** lock_hashtable_grow: the records stay, each relinked into the chain of its new slot. */
    method Grow()
      requires Valid()
      modifies this
      ensures Valid() && table == old(table) && recs.obj == old(recs.obj) && size == 2 * old(size) + 1
    {
      var newsize := size * 2 + 1;
      ptr, recs, chains := MoveAll(ptr, newsize, recs, chains, recs.obj.Keys);
      size := newsize;
    }

    /** The lookup loop: the record of o in its chain, if there is one. */
    method Lookup(o: Object) returns (lr: Record)
      requires Valid()
      ensures lr == if o in table then table[o] else NULL
      ensures o in table ==> table[o] != NULL
    {
      var slot := Home(o, size);
      ghost var c := chains[slot];
      assert Linked(c, ptr[slot], recs.hashlink) && InPlace(c, slot, size, recs.obj, recs.obj.Keys);
      if o in table {
        AtHome(ptr, recs, chains, recs.obj.Keys, table[o]);
      }
      ghost var k := 0;
      lr := ptr[slot];
      while lr != NULL && recs.obj[lr] != o
        invariant 0 <= k <= |c| && lr == At(c, k) && (lr != NULL ==> lr in c)
        invariant forall j :: 0 <= j < k ==> recs.obj[c[j]] != o
        decreases |c| - k
      {
        assert recs.hashlink[c[k]] == At(c, k + 1);
        lr := recs.hashlink[lr];
        k := k + 1;
      }
    }

    /**
      lock_hashtable_get for an object with the given lockword: the record in a fat lockword, or
      else the record of o in the table, made if there is none; newRecord is the address that
      lock_record_new would return.
     */
    method Get(o: Object, lockword: M.Word, newRecord: Record) returns (lr: Record)
      requires Valid() && newRecord != NULL && newRecord !in recs.obj
      modifies this
      ensures Valid()
      ensures lockword.Fat? ==> lr == lockword.rec && table == old(table)
      ensures lockword.Thin? ==>
                && o in table && lr == table[o]
                && table == if o in old(table) then old(table) else old(table)[o := newRecord]
      ensures size == if table != old(table) && |table| * 3 > old(size) * 4 then 2 * old(size) + 1 else old(size)
    {
      if lockword.Fat? { return lockword.rec; }
      lr := Lookup(o);
      if lr != NULL { return; }
      lr := newRecord;
      var slot := Home(o, size);
      PushOk(ptr, recs, chains, recs.obj.Keys, lr, o);
      Entered(table, recs.obj, o, lr);
      chains, table := chains[slot := [lr] + chains[slot]], table[o := lr];
      recs := Records(recs.obj[lr := o], recs.hashlink[lr := ptr[slot]]);
      ptr := ptr[slot := lr];
      entries := entries + 1;
      if entries * 3 > size * 4 { Grow(); }
    }

    /** lock_hashtable_remove: lr is the record in the fat lockword of o. */
    method Remove(o: Object, lr: Record)
      requires Valid() && o in table && table[o] == lr
      modifies this
      ensures Valid() && table == old(table) - {o} && recs.obj == old(recs.obj) - {lr}
    {
      var slot := Home(o, size);
      ghost var c := chains[slot];
      AtHome(ptr, recs, chains, recs.obj.Keys, lr);
      ghost var k :| 0 <= k < |c| && c[k] == lr;
      Removed(ptr, recs, chains, table, o, lr, slot, k);
      chains, table := chains[slot := c[..k] + c[k + 1..]], table - {o};
      var tmplr, link := ptr[slot], recs.hashlink;
      if tmplr == lr {
        assert k == 0;
        ptr := ptr[slot := link[lr]];
      } else {
        tmplr := Predecessor(tmplr, lr, link, c, k);
        link := link[tmplr := link[lr]];
      }
      recs := Records(recs.obj - {lr}, link);
      entries := entries - 1;
    }
  }

  /** The table without o, whose record is the k-th of its chain. */
  lemma Removed(ptr: seq<Record>, recs: Records, chains: seq<Chain>, m: map<Object, Record>,
                o: Object, r: Record, s: nat, k: nat)
    requires TableOk(ptr, recs, chains, recs.obj.Keys) && Inverse(m, recs.obj) && o in m && m[o] == r
    requires s < |chains| && k < |chains[s]| && chains[s][k] == r
    ensures r in recs.hashlink && Linked(chains[s], ptr[s], recs.hashlink)
    ensures TableOk(if k == 0 then ptr[s := recs.hashlink[r]] else ptr,
                    Records(recs.obj - {r}, CutLinks(recs.hashlink, chains[s], k)),
                    chains[s := chains[s][..k] + chains[s][k + 1..]], (recs.obj - {r}).Keys)
    ensures Inverse(m - {o}, recs.obj - {r}) && |m - {o}| == |m| - 1
  {
    assert Linked(chains[s], ptr[s], recs.hashlink);
    CutOk(ptr, recs, chains, recs.obj.Keys, s, k);
    Left(m, recs.obj, o, r);
  }

  /** The loop that finds the record before lr; the assertion after it holds. */
  method Predecessor(first: Record, lr: Record, hashlink: map<Record, Record>, ghost c: Chain, ghost k: nat)
    returns (tmplr: Record)
    requires Linked(c, first, hashlink) && k < |c| && c[k] == lr && first != lr
    ensures 0 < k && tmplr == c[k - 1]
  {
    tmplr := first;
    ghost var j := 0;
    while hashlink[tmplr] != lr
      invariant 0 <= j < k && tmplr == c[j]
      decreases k - j
    {
      assert hashlink[c[j]] == At(c, j + 1);
      tmplr := hashlink[tmplr];
      j := j + 1;
    }
    assert hashlink[c[j]] == At(c, j + 1);
  }
}
