/**
  The lists of active and of free threads.  Thread objects are recycled together with their
  indices, which stay distinct and non-zero, so that the thin-lock words of the threads do too.
 */
module ThreadList {
  import opened Util
  import opened MonitorModel
  import opened Lockword

  type Thread = int

  const NULL: Thread := 0

  /** The fields of a thread object that the lists and the locks use. */
  datatype ThreadObject = ThreadObject(index: int, thinlock: Size, internal: bool, isNew: bool, inActiveList: bool,
                                       flcBit: bool, flcNext: Thread, flcList: Thread, flcObject: int,
                                       interrupted: bool, signaled: bool)

  /** What thread_new makes of a thread object, recycled or not. */
  function Fresh(index: int, internal: bool): ThreadObject {
    ThreadObject(index, PreCompute(AsInt32(index)), internal, true, false, false, NULL, NULL, NULL, false, false)
  }

  /** The number of threads in the list that are visible to Java. */
  function NumJava(list: seq<Thread>, threads: map<Thread, ThreadObject>): nat {
    if list == [] then 0
    else NumJava(list[1..], threads) + (if list[0] in threads && !threads[list[0]].internal then 1 else 0)
  }

  lemma {:induction false} NumJavaAppend(list: seq<Thread>, threads: map<Thread, ThreadObject>, t: Thread)
    ensures NumJava(list + [t], threads) == NumJava(list, threads) + NumJava([t], threads)
  {
    if list != [] {
      assert (list + [t])[1..] == list[1..] + [t];
      NumJavaAppend(list[1..], threads, t);
    } else {
      assert list + [t] == [t];
    }
  }

  /** Threads that are not in the list do not matter, and neither do fields other than the flag. */
  lemma {:induction false} NumJavaSame(list: seq<Thread>, threads: map<Thread, ThreadObject>,
                                        threads': map<Thread, ThreadObject>)
    requires forall t :: t in list ==> t in threads && t in threads' && threads[t].internal == threads'[t].internal
    ensures NumJava(list, threads) == NumJava(list, threads')
  {
    if list == [] {
    } else {
      var t := list[0];
      assert t in list && threads[t].internal == threads'[t].internal;
      assert forall u :: u in list[1..] ==> u in list;
      NumJavaSame(list[1..], threads, threads');
    }
  }

  lemma {:induction false} NumJavaWithout(list: seq<Thread>, threads: map<Thread, ThreadObject>, t: Thread)
    requires Distinct(list) && t in list
    ensures NumJava(Without(list, t), threads) == NumJava(list, threads) - NumJava([t], threads)
    ensures Distinct(Without(list, t))
  {
    if list[0] == t {
      WithoutNone(list[1..], t);
    } else {
      NumJavaWithout(list[1..], threads, t);
      var rest := Without(list[1..], t);
      assert Without(list, t) == [list[0]] + rest && ([list[0]] + rest)[1..] == rest;
      assert list[0] !in list[1..];
    }
  }

  /** Distinct thread objects have distinct non-zero indices. */
  ghost predicate IndicesOk(threads: map<Thread, ThreadObject>, lastIndex: int) {
    && NULL !in threads && lastIndex >= 0
    && (forall t :: t in threads ==>
          1 <= threads[t].index <= lastIndex && threads[t].thinlock == PreCompute(AsInt32(threads[t].index)))
    && (forall t, u :: t in threads && u in threads && t != u ==> threads[t].index != threads[u].index)
  }

  /** No thread is active and free at once, and none is in a list twice. */
  ghost predicate ListsOk(active: seq<Thread>, free: seq<Thread>, threads: map<Thread, ThreadObject>) {
    && Distinct(active) && Distinct(free)
    && (forall t :: t in active ==> t in threads && t !in free)
    && (forall t :: t in free ==> t in threads)
    && (forall t :: t in threads ==> (threads[t].inActiveList <==> t in active))
  }

  /** A recycled or new thread object that is in neither list. */
  lemma Prepared(threads: map<Thread, ThreadObject>, lastIndex: int, active: seq<Thread>,
                 free: seq<Thread>, t: Thread, thread: ThreadObject)
    requires IndicesOk(threads, lastIndex) && ListsOk(active, free, threads) && t !in active && t !in free && t != NULL
    requires !thread.inActiveList && thread.thinlock == PreCompute(AsInt32(thread.index))
    requires if t in threads then thread.index == threads[t].index else thread.index == lastIndex + 1
    ensures IndicesOk(threads[t := thread], if t in threads then lastIndex else lastIndex + 1)
    ensures ListsOk(active, free, threads[t := thread])
    ensures NumJava(active, threads[t := thread]) == NumJava(active, threads)
    ensures |threads[t := thread]| == |threads| + if t in threads then 0 else 1
  {
    NumJavaSame(active, threads, threads[t := thread]);
    if t in threads { assert threads[t := thread].Keys == threads.Keys; }
  }

  lemma IndexedApart(i: int, j: int, c: int, d: int)
    requires 0 < i < MAX_INDEX && 0 < j < MAX_INDEX && i != j
    requires 0 <= c <= THIN_LOCK_COUNT_MAX && 0 <= d <= THIN_LOCK_COUNT_MAX
    ensures PreCompute(AsInt32(i)) == ThinWord(i, 0) && PreCompute(AsInt32(i)) != PreCompute(AsInt32(j))
    ensures ThinWord(i, c) != ThinWord(j, d) && Decode(ThinWord(i, c)) == Thin(i, c) && ThinWord(i, c) != 0
  {
    SmallIndex(i);
    SmallIndex(j);
    ThinDecodes(i, c);
    ThinDecodes(j, d);
  }

  lemma SmallIndex(i: int)
    requires 0 < i < MAX_INDEX
    ensures PreCompute(AsInt32(i)) == ThinWord(i, 0) == i * 0x200
  {
    ThinDecodes(i, 0);
  }

  class ThreadList {
    var active: seq<Thread>
    var free: seq<Thread>
    var numberOfStartedJavaThreads: int
    var numberOfActiveJavaThreads: int
    var peakOfActiveJavaThreads: int
    var lastIndex: int

    /** The thread objects, which are never freed. */
    var threads: map<Thread, ThreadObject>

    ghost predicate Valid()
      reads this
    {
      && IndicesOk(threads, lastIndex) && ListsOk(active, free, threads)
      && numberOfActiveJavaThreads == NumJava(active, threads)
      && numberOfActiveJavaThreads <= peakOfActiveJavaThreads <= numberOfStartedJavaThreads
    }

    constructor ()
      ensures Valid() && threads == map[] && lastIndex == 0
    {
      active, free, threads, lastIndex := [], [], map[], 0;
      numberOfStartedJavaThreads, numberOfActiveJavaThreads, peakOfActiveJavaThreads := 0, 0, 0;
    }

    /** get_free_thread: the first free thread with its index, or NULL with a new index. */
    method GetFreeThread() returns (thread: Thread, index: int)
      requires Valid()
      modifies this
      ensures Valid() && threads == old(threads) && active == old(active)
      ensures old(free) != [] ==> thread == old(free)[0] && index == threads[thread].index && free == old(free)[1..]
      ensures old(free) != [] ==> lastIndex == old(lastIndex) && thread !in free
      ensures old(free) == [] ==> thread == NULL && free == [] && index == lastIndex == old(lastIndex) + 1
      ensures numberOfStartedJavaThreads == old(numberOfStartedJavaThreads)
      ensures peakOfActiveJavaThreads == old(peakOfActiveJavaThreads)
    {
      if free != [] {
        thread := free[0];
        assert thread in free && forall t :: t in free[1..] ==> t in free;
        free := free[1..];
        index := threads[thread].index;
      } else {
        thread := NULL;
        lastIndex := lastIndex + 1;
        index := lastIndex;
      }
    }

    /**
      thread_new: a recycled thread object or a new one, in neither list; newThread is the
      address that the allocator would return.
     */
    method NewThread(newThread: Thread, internal: bool) returns (t: Thread)
      requires Valid() && newThread != NULL && newThread !in threads
      modifies this
      ensures Valid() && t in threads && t !in active && t !in free && active == old(active)
      // a recycled object with its index, or a new one with a new index
      ensures old(free) != [] ==>
                && t == old(free)[0] && free == old(free)[1..]
                && t in old(threads) && threads[t].index == old(threads)[t].index && lastIndex == old(lastIndex)
      ensures old(free) == [] ==> t == newThread && free == [] && threads[t].index == lastIndex == old(lastIndex) + 1
      // whatever the object held before
      ensures threads[t].thinlock == PreCompute(AsInt32(threads[t].index)) && threads[t].internal == internal
      ensures threads[t].isNew && !threads[t].inActiveList && !threads[t].interrupted && !threads[t].signaled
      ensures !threads[t].flcBit && threads[t].flcNext == threads[t].flcList == NULL && threads[t].flcObject == NULL
      // and nothing else
      ensures threads.Keys == old(threads).Keys + {t}
      ensures forall u :: u in old(threads) && u != t ==> threads[u] == old(threads)[u]
      ensures numberOfStartedJavaThreads == old(numberOfStartedJavaThreads)
      ensures peakOfActiveJavaThreads == old(peakOfActiveJavaThreads)
    {
      ghost var last := lastIndex;
      assert IndicesOk(threads, last);
      var index;
      t, index := GetFreeThread();
      if t == NULL { t := newThread; }
      Prepared(threads, last, active, free, t, Fresh(index, internal));
      threads := threads[t := Fresh(index, internal)];
    }

    /** add_to_active_thread_list */
    method AddToActiveThreadList(t: Thread)
      requires Valid() && t in threads && t !in active && t !in free
      modifies this
      ensures Valid() && active == old(active) + [t] && free == old(free) && lastIndex == old(lastIndex)
      ensures threads == old(threads)[t := old(threads)[t].(inActiveList := true)]
      ensures numberOfStartedJavaThreads == old(numberOfStartedJavaThreads) + (if threads[t].internal then 0 else 1)
      ensures numberOfActiveJavaThreads == old(numberOfActiveJavaThreads) + (if threads[t].internal then 0 else 1)
      ensures peakOfActiveJavaThreads ==
                if old(peakOfActiveJavaThreads) < numberOfActiveJavaThreads then numberOfActiveJavaThreads
                else old(peakOfActiveJavaThreads)
    {
      NumJavaSame(active, threads, threads[t := threads[t].(inActiveList := true)]);
      active := active + [t];
      threads := threads[t := threads[t].(inActiveList := true)];
      NumJavaAppend(old(active), threads, t);
      if !threads[t].internal {
        numberOfStartedJavaThreads := numberOfStartedJavaThreads + 1;
        numberOfActiveJavaThreads := numberOfActiveJavaThreads + 1;
        if peakOfActiveJavaThreads < numberOfActiveJavaThreads {
          peakOfActiveJavaThreads := numberOfActiveJavaThreads;
        }
      }
    }

    /** remove_from_active_thread_list, which is all that deactivate_thread does to the lists */
    method RemoveFromActiveThreadList(t: Thread)
      requires Valid() && t in active
      modifies this
      ensures Valid() && active == Without(old(active), t) && free == old(free) && lastIndex == old(lastIndex)
      ensures threads == old(threads)[t := old(threads)[t].(inActiveList := false)]
      ensures numberOfActiveJavaThreads == old(numberOfActiveJavaThreads) - (if threads[t].internal then 0 else 1)
      ensures numberOfStartedJavaThreads == old(numberOfStartedJavaThreads)
      ensures peakOfActiveJavaThreads == old(peakOfActiveJavaThreads)
    {
      NumJavaWithout(active, threads, t);
      active := Without(active, t);
      threads := threads[t := threads[t].(inActiveList := false)];
      NumJavaSame(active, old(threads), threads);
      if !threads[t].internal {
        numberOfActiveJavaThreads := numberOfActiveJavaThreads - 1;
      }
    }

    /** release_thread: the thread object is ready to be used again. */
    method ReleaseThread(t: Thread, needsDeactivate: bool)
      requires Valid() && t in threads && t !in free && (needsDeactivate <==> threads[t].inActiveList)
      modifies this
      ensures Valid() && active == Without(old(active), t) && free == old(free) + [t]
      ensures lastIndex == old(lastIndex) && threads == old(threads)[t := old(threads)[t].(inActiveList := false)]
      ensures numberOfStartedJavaThreads == old(numberOfStartedJavaThreads)
      ensures peakOfActiveJavaThreads == old(peakOfActiveJavaThreads)
    {
      if needsDeactivate {
        RemoveFromActiveThreadList(t);
      } else {
        WithoutNone(active, t);
      }
      free := free + [t];
    }

    /** get_thread_by_index: the active thread with this index, unless it has not been started yet. */
    method GetThreadByIndex(index: int) returns (t: Thread)
      requires Valid()
      ensures t != NULL ==> t in active && threads[t].index == index && !threads[t].isNew
      ensures t == NULL ==> forall u :: u in active && threads[u].index == index ==> threads[u].isNew
      ensures index == 0 ==> t == NULL
    {
      var i := 0;
      while i < |active| && threads[active[i]].index != index
        invariant 0 <= i <= |active| && forall j :: 0 <= j < i ==> threads[active[j]].index != index
      {
        i := i + 1;
      }
      if i == |active| { return NULL; }
      t := active[i];
      assert t in active;
      if threads[t].isNew { return NULL; }
    }

    /** While fewer than 2^22 indices have been given out, the thin-lock words identify the threads. */
    lemma ThinLocksDistinct(t: Thread, u: Thread, c: int, d: int)
      requires IndicesOk(threads, lastIndex) && lastIndex < MAX_INDEX && t in threads && u in threads && t != u
      requires 0 <= c <= THIN_LOCK_COUNT_MAX && 0 <= d <= THIN_LOCK_COUNT_MAX
      ensures threads[t].thinlock == ThinWord(threads[t].index, 0) && threads[t].thinlock != threads[u].thinlock
      ensures ThinWord(threads[t].index, c) != ThinWord(threads[u].index, d)
      ensures Decode(ThinWord(threads[t].index, c)) == Thin(threads[t].index, c) && ThinWord(threads[t].index, c) != 0
    {
      IndexedApart(threads[t].index, threads[u].index, c, d);
    }
  }
}
