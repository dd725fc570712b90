/**
  A thread inside an flc_lock leaves it after boundedly many steps of its own, whatever the other
  threads do: nobody waits for an flc_lock forever because its holder is stuck.
 */
module MonitorProgress {
  import opened MonitorModel
  import opened MonitorInv
  import opened MonitorFrames
  import opened MonitorSteps

  // ---------------------------------------------------------------- how much is left to do

  function InflateRank(st: InflateStage): int {
    match st
    case IGetRead => 7
    case IGetTable => 6
    case ILock(_) => 5
    case IOwner(_) => 4
    case IRead(_) => 3
    case ICount(_, _) => 2
    case ISet(_) => 1
  }

  /** An upper bound for the steps of a thread at p, with an FLC list of length n, up to the unlocking. */
  function FlcWork(p: PC, n: int): int {
    match p
    case Flc(_, _, f) =>
      (match f
       case FReadBit => 6
       case FSetBit(_) => 5
       case FReread(_) => 4
       case FEnqueue => 3
       case FCheck => 2
       case FRestore(_) => 2
       case FUnlock => 1
       case _ => 0)
    case Notify(_, _, st) =>
      (match st
       case NLoop(pos) => 10 * (n - pos) + 3
       case NWord(pos) => 10 * (n - pos) + 2
       case NWake(pos) => 10 * (n - pos) - 6
       case NClear => 2
       case NUnlock => 1
       case _ => 0)
    case Inflate(_, why, st) => if why.InNotify? then 10 * (n - why.pos) - 6 + InflateRank(st) else 0
    case _ => 0
  }

  function Work(s: State, u: Tid): int { FlcWork(Pc(s, u), |List(s, u)|) }

  /** The holder of an flc_lock is a contender with at most 6 steps to go, or the owner of the lock itself. */
  lemma HolderWork(s: State, i: Tid)
    requires Inv(s) && i != 0 && Lock(s, i) != 0
    ensures var u := Lock(s, i);
            && Work(s, u) >= 1
            && (u != i ==> Pc(s, u).Flc? && Work(s, u) <= 6)
            && (u == i ==> Work(s, u) <= 10 * |List(s, i)| + 3)
  {
    var u := Lock(s, i);
    assert FlcOk(s, i) && ThreadOk(s, u);
  }

  // ---------------------------------------------------------------- the holder can go on

  lemma Bounded(xs: set<int>) returns (m: int)
    ensures forall x :: x in xs ==> x < m
  {
    if y: int :| y in xs {
      m := Bounded(xs - {y});
      assert forall x :: x in xs ==> x == y || x in xs - {y};
      if m <= y { m := y + 1; }
    } else {
      m := 0;
    }
  }

  /** Whoever is inside an flc_lock has a step of its own to take, with no mutex in the way. */
  lemma HolderEnabled(s: State, i: Tid) returns (s': State)
    requires Inv(s) && i != 0 && Lock(s, i) != 0
    ensures OwnStep(s, Lock(s, i), s')
  {
    var u := Lock(s, i);
    assert FlcOk(s, i);
    assert ThreadOk(s, u);
    if Pc(s, u).Flc? {
      var Flc(o, j, f) := Pc(s, u);
      assert FlcEnabled(s, j, f, false);
      s' := FlcNext(s, u, o, j, f, false);
      assert FlcStep(s, u, s');
    } else if Pc(s, u).Notify? {
      var Notify(o, ret, n) := Pc(s, u);
      s' := NotifyNext(s, u, o, ret, n);
      assert NotifyFlcStep(s, u, s');
    } else {
      var Inflate(o, why, st) := Pc(s, u);
      var nrec := Bounded(s.recs.robj.Keys);
      if st.ILock? {
        assert TableOk(s, o) && RecOk(s, st.r);
      }
      assert InflateEnabled(s, st, nrec);
      s' := InflateNext(s, u, o, why, st, nrec);
      assert InflateStep(s, u, s');
    }
  }

  // ---------------------------------------------------------------- its own steps

  /** The holder of the flc_lock of i has moved on, and has left it or has less to do. */
  ghost predicate Works(s: State, u: Tid, s': State, i: Tid) {
    Pc(s', u) != Pc(s, u) && (Lock(s', i) == 0 || Work(s', u) < Work(s, u))
  }

  lemma ContenderWorks(s: State, u: Tid, s': State, o: Obj, i: Tid, f: FlcStage, found: bool)
    requires Pc(s, u) == Flc(o, i, f) && s' == FlcNext(s, u, o, i, f, found)
    requires !f.FLookup? && !f.FLock? && !f.FSleep?
    ensures Works(s, u, s', i)
  {
    match f
    case FReadBit => assert Pc(s', u) == Flc(o, i, FSetBit(Bit(s, i)));
    case FSetBit(prev) => assert Pc(s', u) == Flc(o, i, FReread(prev));
    case FReread(prev) => assert Pc(s', u) == Flc(o, i, if OwnThin(Lw(s, o), i) then FEnqueue else FRestore(prev));
    case FEnqueue => assert Pc(s', u) == Flc(o, i, FCheck);
    case FCheck => assert Pc(s', u) == Flc(o, i, if Fobj(s, u) == None then FUnlock else FSleep);
    case FRestore(prev) => assert Pc(s', u) == Flc(o, i, FUnlock);
    case FUnlock => assert Lock(s', i) == 0;
  }

  lemma NotifierWorks(s: State, u: Tid, s': State, o: Obj, ret: Ret, n: NotifyStage)
    requires Pc(s, u) == Notify(o, ret, n) && s' == NotifyNext(s, u, o, ret, n)
    requires NotifyOk(s, u, o, ret, n) && !n.NLock?
    ensures Works(s, u, s', u)
  {
    match n
    case NLoop(pos) =>
      assert Pc(s', u) == Notify(o, ret, if pos >= |List(s, u)| then NClear
                                         else if Fobj(s, List(s, u)[pos]) != Some(o) then NWord(pos) else NWake(pos));
    case NWord(pos) => assert Pc(s', u) == Notify(o, ret, NWake(pos)) || EntersInflation(Pc(s', u), pos);
    case NWake(pos) => assert Pc(s', u) == Notify(o, ret, NLoop(pos + 1));
    case NClear => assert Pc(s', u) == Notify(o, ret, NUnlock);
    case NUnlock => assert Lock(s', u) == 0 && !Pc(s', u).Notify?;
  }

  predicate EntersInflation(p: PC, pos: int) {
    p.Inflate? && p.why.InNotify? && p.why.pos == pos && p.st.IGetRead?
  }

  lemma InflaterWorks(s: State, u: Tid, s': State, o: Obj, why: Why, st: InflateStage, nrec: Rec)
    requires Pc(s, u) == Inflate(o, why, st) && s' == InflateNext(s, u, o, why, st, nrec) && why.InNotify?
    requires Lw(s, o).Thin?
    ensures Works(s, u, s', u)
  {
    match st
    case IGetRead => WorksTo(s, u, s', Inflate(o, why, IGetTable));
    case IGetTable => WorksTo(s, u, s', Inflate(o, why, ILock(if o in s.recs.table then s.recs.table[o] else nrec)));
    case ILock(r) => WorksTo(s, u, s', Inflate(o, why, IOwner(r)));
    case IOwner(r) => WorksTo(s, u, s', Inflate(o, why, IRead(r)));
    case IRead(r) => WorksTo(s, u, s', Inflate(o, why, ICount(r, Lw(s, o).count)));
    case ICount(r, c) => WorksTo(s, u, s', Inflate(o, why, ISet(r)));
    case ISet(r) => WorksTo(s, u, s', Notify(why.rel, why.ret, NWake(why.pos)));
  }

  lemma WorksTo(s: State, u: Tid, s': State, p': PC)
    requires s'.pc == s.pc[u := p'] && s'.flc == s.flc && FlcWork(p', |List(s, u)|) < Work(s, u)
    ensures Works(s, u, s', u)
  {
  }

  /** Every step of its own brings the holder closer to the unlocking. */
  lemma HolderWorks(s: State, u: Tid, s': State, i: Tid)
    requires Inv(s) && OwnStep(s, u, s') && i != 0 && u != 0 && Lock(s, i) == u
    ensures Works(s, u, s', i)
  {
    assert FlcOk(s, i) && ThreadOk(s, u);
    if Pc(s, u).Flc? {
      var Flc(o, _, f) := Pc(s, u);
      var found: bool :| s' == FlcNext(s, u, o, i, f, found);
      ContenderWorks(s, u, s', o, i, f, found);
    } else if Pc(s, u).Notify? {
      NotifierWorks(s, u, s', Pc(s, u).o, Pc(s, u).ret, Pc(s, u).n);
    } else {
      var Inflate(o, why, st) := Pc(s, u);
      var nrec: Rec :| s' == InflateNext(s, u, o, why, st, nrec);
      InflaterWorks(s, u, s', o, why, st, nrec);
    }
  }

  // ---------------------------------------------------------------- the steps of the others

  lemma OthersLeaveWork(s: State, t: Tid, s': State, u: Tid, i: Tid)
    requires Inv(s) && Step(s, t, s') && Marked(s', t) && i != 0 && u != 0 && Lock(s, i) == u
    requires t != u || !OwnStep(s, t, s')
    ensures Lock(s', i) == u && Work(s', u) == Work(s, u) && Pc(s', u) == Pc(s, u)
  {
    assert FlcOk(s, i) && ThreadOk(s, u);
    if OwnStep(s, t, s') {
      assert ThreadOk(s, t) && Ready(s, t);
      StepKept(s, t, s');
      OthersLeaveList(s, t, s', u, i);
    }
  }

  lemma OthersLeaveList(s: State, t: Tid, s': State, u: Tid, i: Tid)
    requires GuarThreads(s, t, s') && GuarFlc(s, t, s') && t != u && u != 0 && Lock(s, i) == u
    requires FlcHeld(Pc(s, u), u) == i && i != 0
    ensures Lock(s', i) == u && Work(s', u) == Work(s, u) && Pc(s', u) == Pc(s, u)
  {
    assert s'.flc == s.flc || ListChange(s, t, s', i);
  }

  // ---------------------------------------------------------------- the bound

  /** How often u moves between k and j. */
  ghost function Moves(run: seq<State>, k: nat, j: nat, u: Tid): nat
    requires k <= j < |run|
    decreases j - k
  {
    if k == j then 0
    else Moves(run, k, j - 1, u) + (if Pc(run[j], u) != Pc(run[j - 1], u) then 1 else 0)
  }

  /**
    While u stays inside the flc_lock of i, it moves fewer than 6 times if it is a contender, and
    fewer than 10 n + 3 times if it is i itself and notifies n contenders.
   */
  lemma FlcLockReleased(run: seq<State>, actor: seq<Tid>, k: nat, j: nat, i: Tid, u: Tid)
    requires IsRun(run, actor) && k <= j < |run| && Upheld(run, j) && i != 0 && u != 0
    requires forall m :: k <= m <= j ==> Lock(run[m], i) == u
    ensures Moves(run, k, j, u) < (if u != i then 6 else 10 * |List(run[k], i)| + 3)
  {
    HolderAt(run, actor, k, i, u);
    HolderAt(run, actor, j, i, u);
    var work := seq(|run|, m requires 0 <= m < |run| => Work(run[m], u));
    forall m | k < m <= j
      ensures work[m] <= work[m - 1] && (Pc(run[m], u) != Pc(run[m - 1], u) ==> work[m] < work[m - 1])
    {
      HolderStep(run, actor, m - 1, i, u);
    }
    MovesBounded(run, k, j, u, work);
  }

  /** Whatever shrinks with every move bounds the number of moves. */
  lemma {:induction false} MovesBounded(run: seq<State>, k: nat, j: nat, u: Tid, work: seq<int>)
    requires k <= j < |run| == |work|
    requires forall m :: k < m <= j ==>
               work[m] <= work[m - 1] && (Pc(run[m], u) != Pc(run[m - 1], u) ==> work[m] < work[m - 1])
    ensures Moves(run, k, j, u) + work[j] <= work[k]
    decreases j - k
  {
    if k == j {
    } else {
      MovesBounded(run, k, j - 1, u, work);
    }
  }

  lemma HolderAt(run: seq<State>, actor: seq<Tid>, k: nat, i: Tid, u: Tid)
    requires IsRun(run, actor) && k < |run| && Upheld(run, k) && i != 0 && u != 0 && Lock(run[k], i) == u
    ensures 1 <= Work(run[k], u) <= (if u != i then 6 else 10 * |List(run[k], i)| + 3)
  {
    RunInv(run, actor, k);
    HolderWork(run[k], i);
  }

  lemma HolderStep(run: seq<State>, actor: seq<Tid>, k: nat, i: Tid, u: Tid)
    requires IsRun(run, actor) && k < |actor| && Upheld(run, k + 1) && i != 0 && u != 0
    requires Lock(run[k], i) == u && Lock(run[k + 1], i) == u
    ensures 1 <= Work(run[k + 1], u) <= Work(run[k], u)
    ensures Pc(run[k + 1], u) != Pc(run[k], u) ==> Work(run[k + 1], u) < Work(run[k], u)
  {
    RunInv(run, actor, k);
    RunInv(run, actor, k + 1);
    assert StepAt(run, actor, k) && AllMarked(run[k + 1]);
    HolderWork(run[k + 1], i);
    if actor[k] == u && OwnStep(run[k], u, run[k + 1]) {
      HolderWorks(run[k], u, run[k + 1], i);
    } else {
      OthersLeaveWork(run[k], actor[k], run[k + 1], u, i);
    }
  }

  /** And it is never blocked: in every state it has a step of its own, which leaves the lock or less to do. */
  lemma FlcHolderNeverBlocks(run: seq<State>, actor: seq<Tid>, k: nat, i: Tid) returns (s': State)
    requires IsRun(run, actor) && k < |run| && Upheld(run, k) && i != 0 && Lock(run[k], i) != 0
    ensures OwnStep(run[k], Lock(run[k], i), s')
    ensures Works(run[k], Lock(run[k], i), s', i)
  {
    RunInv(run, actor, k);
    s' := HolderEnabled(run[k], i);
    HolderWorks(run[k], Lock(run[k], i), s', i);
  }
}
