/**
  Operations that one thread carries through alone, while the others stand still: each returns, with
  the promised effect, from every state in which nobody is in the way; and from the others it does not.
 */
module MonitorAlone {
  import opened MonitorModel
  import opened MonitorInv
  import opened MonitorFrames
  import opened MonitorSteps
  import opened MonitorTheorems
  import opened MonitorOutcomes
  import opened MonitorFinish
  import opened MonitorPaths
  import P = MonitorProgress
  import S = MonitorSafety

  // ---------------------------------------------------------------- paths of one thread

  /** t, inside an operation, takes the step from path[k]. */
  ghost predicate InnerStep(path: seq<State>, t: Tid, k: nat)
    requires k + 1 < |path|
  {
    !Pc(path[k], t).Idle? && OwnStep(path[k], t, path[k + 1])
  }

  ghost predicate AlonePath(path: seq<State>, t: Tid) {
    forall k: nat :: k + 1 < |path| ==> InnerStep(path, t, k)
  }

  /** n steps of t, all inside the operation it is in, lead from s to s'. */
  ghost predicate LeadsAlone(s: State, t: Tid, s': State, n: nat) {
    exists path: seq<State> :: |path| == n + 1 && AlonePath(path, t) && path[0] == s && path[n] == s'
  }

  lemma NoStep(s: State, t: Tid)
    ensures LeadsAlone(s, t, s, 0)
  {
    assert AlonePath([s], t);
  }

  lemma OneMore(s: State, t: Tid, s1: State, s': State, n: nat)
    requires !Pc(s, t).Idle? && OwnStep(s, t, s1) && LeadsAlone(s1, t, s', n)
    ensures LeadsAlone(s, t, s', n + 1)
  {
    var path: seq<State> :| |path| == n + 1 && AlonePath(path, t) && path[0] == s1 && path[n] == s';
    var path' := [s] + path;
    forall k: nat | k + 1 < |path'| ensures InnerStep(path', t, k) {
      if k > 0 { assert InnerStep(path, t, k - 1); }
    }
    assert path'[0] == s && path'[n + 1] == s';
  }

  lemma AloneLeads(s: State, t: Tid, s': State, n: nat)
    requires t != 0 && LeadsAlone(s, t, s', n)
    ensures Leads(s, s')
  {
    var path: seq<State> :| |path| == n + 1 && AlonePath(path, t) && path[0] == s && path[n] == s';
    var actor := seq(n, _ => t);
    forall i | 0 <= i < |actor| ensures StepAt(path, actor, i) { assert InnerStep(path, t, i); }
    assert IsPath(path, actor) && path[|path| - 1] == s';
  }

  // ---------------------------------------------------------------- an unhindered thread can go on

  lemma CanEnter(s: State, t: Tid, o: Obj, e: EnterStage) returns (s': State)
    requires Pc(s, t) == Enter(o, e) && EnterOk(s, t, o, e) && FreeFor(s, t, o)
    ensures EnterStep(s, t, s')
  {
    s' := EnterNext(s, t, o, e);
  }

  lemma CanContend(s: State, t: Tid, o: Obj, i: Tid, f: FlcStage) returns (s': State)
    requires Inv(s) && t != 0 && Pc(s, t) == Flc(o, i, f) && LockFree(s, t, i)
    ensures FlcStep(s, t, s')
  {
    assert ThreadOk(s, t) && (i != 0 ==> FlcOk(s, i));
    assert FlcEnabled(s, i, f, false);
    s' := FlcNext(s, t, o, i, f, false);
  }

  lemma CanInflate(s: State, t: Tid, o: Obj, why: Why, st: InflateStage) returns (s': State)
    requires Inv(s) && t != 0 && Pc(s, t) == Inflate(o, why, st)
    ensures InflateStep(s, t, s')
  {
    var nrec := P.Bounded(s.recs.robj.Keys);
    assert ThreadOk(s, t);
    if st.ILock? { assert TableOk(s, o) && RecOk(s, st.r); }
    assert InflateEnabled(s, st, nrec);
    s' := InflateNext(s, t, o, why, st, nrec);
  }

  lemma CanNotify(s: State, t: Tid, o: Obj, ret: Ret, n: NotifyStage) returns (s': State)
    requires Inv(s) && t != 0 && Pc(s, t) == Notify(o, ret, n) && LockFree(s, t, t)
    ensures NotifyFlcStep(s, t, s')
  {
    assert ThreadOk(s, t) && FlcOk(s, t);
    s' := NotifyNext(s, t, o, ret, n);
  }

  lemma CanPark(s: State, t: Tid, o: Obj, r: Rec, saved: int, q: ParkStage) returns (s': State)
    requires Pc(s, t) == Park(o, r, saved, q) && Lw(s, o) == Fat(r) && (q.PLock? ==> MonitorOwner(s, o) == 0)
    ensures ParkStep(s, t, s')
  {
    s' := ParkNext(s, t, o, r, saved, q);
  }

  /** It has a step to take, with no mutex in the way. */
  lemma CanStep(s: State, t: Tid) returns (s': State)
    requires Inv(s) && t != 0 && !Pc(s, t).Idle? && Unhindered(s, t)
    ensures OwnStep(s, t, s')
  {
    assert ThreadOk(s, t);
    match Pc(s, t)
    case Enter(o, e) => s' := CanEnter(s, t, o, e);
    case Flc(o, i, f) => s' := CanContend(s, t, o, i, f);
    case Inflate(o, why, st) => s' := CanInflate(s, t, o, why, st);
    case Overflowed(o, r) => s' := Goto(SetCount(s, r, Count(s, r) + 1), t, Notify(o, ROverflow, NLock));
    case Notify(o, ret, n) => s' := CanNotify(s, t, o, ret, n);
    case Exit(o, x) => s' := ExitNext(s, t, o, x);
    case Wait(o, w) => s' := WaitNext(s, t, o, w);
    case Park(o, r, saved, q) => s' := CanPark(s, t, o, r, saved, q);
    case Signal(o, one, g) => s' := SignalNext(s, t, o, one, g);
  }

  // ---------------------------------------------------------------- and comes to the end

  /** What holds of a call from s1 on holds of it from s on. */
  lemma CallStepsJoin(s: State, t: Tid, s1: State, s': State)
    requires !Pc(s, t).Idle? && !Pc(s1, t).Idle? && CallStep(s, t, s1) && CallStep(s1, t, s')
    ensures CallStep(s, t, s')
  {
  }

  lemma Advance(s: State, t: Tid) returns (s': State)
    requires Inv(s) && t != 0 && !Pc(s, t).Idle? && Unhindered(s, t)
    ensures OwnStep(s, t, s') && Inv(s') && CallStep(s, t, s')
    ensures Left(s, t) >= 1
    ensures Pc(s', t).Idle? || (Unhindered(s', t) && 0 <= Left(s', t) < Left(s, t))
  {
    s' := CanStep(s, t);
    StepAdvances(s, t, s');
    OwnStepKeepsInv(s, t, s');
    StepOutcome(s, t, s');
    assert ThreadOk(s, t) && ThreadOk(s', t);
    SomeLeft(s, t);
    if !Pc(s', t).Idle? { SomeLeft(s', t); }
  }

  /** An unhindered thread, alone, returns from its operation within Left(s, t) steps, with the specified outcome. */
  lemma {:induction false} Finishes(s: State, t: Tid) returns (s': State, n: nat)
    requires Inv(s) && t != 0 && !Pc(s, t).Idle? && Unhindered(s, t)
    ensures LeadsAlone(s, t, s', n) && n <= Left(s, t)
    ensures Inv(s') && Pc(s', t).Idle? && CallStep(s, t, s')
    decreases Left(s, t)
  {
    var s1 := Advance(s, t);
    if Pc(s1, t).Idle? {
      s', n := s1, 1;
      NoStep(s1, t);
      OneMore(s, t, s1, s', 0);
    } else {
      s', n := Finishes(s1, t);
      CallStepsJoin(s, t, s1, s');
      OneMore(s, t, s1, s', n);
      n := n + 1;
    }
  }

  // ---------------------------------------------------------------- or stays where it is

  /** t has to notify, and another thread is inside its flc_lock. */
  predicate Stuck(s: State, t: Tid) { WillNotify(s, t) && !LockFree(s, t, t) }

  lemma StuckEnter(s: State, t: Tid, s': State, o: Obj, e: EnterStage)
    requires t != 0 && Pc(s, t) == Enter(o, e) && Stuck(s, t) && EnterOk(s, t, o, e) && s' == EnterNext(s, t, o, e)
    ensures Stuck(s', t)
  {
  }

  lemma StuckInflate(s: State, t: Tid, s': State, o: Obj, why: Why, st: InflateStage, nrec: Rec)
    requires Pc(s, t) == Inflate(o, why, st) && Stuck(s, t) && s' == InflateNext(s, t, o, why, st, nrec)
    ensures Stuck(s', t)
  {
    match st
    case IRead(r) => assert Pc(s', t).Inflate? || Pc(s', t) == AfterInflate(o, r, why);
    case ISet(r) => assert Pc(s', t) == AfterInflate(o, r, why);
    case _ => assert Pc(s', t).Inflate?;
  }

  lemma StuckExit(s: State, t: Tid, s': State, o: Obj, x: ExitStage)
    requires Pc(s, t) == Exit(o, x) && Stuck(s, t) && s' == ExitNext(s, t, o, x)
    ensures Stuck(s', t)
  {
    match x
    case XRead => assert Pc(s', t) == Exit(o, XStore);
    case XStore => assert Pc(s', t) == Exit(o, XBit);
    case XBit => assert Pc(s', t) == Notify(o, RExit, NLock);
  }

  lemma StuckStep(s: State, t: Tid, s': State)
    requires Inv(s) && t != 0 && Stuck(s, t) && OwnStep(s, t, s')
    ensures Stuck(s', t) && Inv(s')
  {
    StuckMove(s, t, s');
    OwnStepKeepsInv(s, t, s');
  }

  lemma StuckMove(s: State, t: Tid, s': State)
    requires Inv(s) && t != 0 && Stuck(s, t) && OwnStep(s, t, s')
    ensures Stuck(s', t)
  {
    assert ThreadOk(s, t);
    match Pc(s, t)
    case Enter(o, e) => StuckEnter(s, t, s', o, e);
    case Inflate(o, why, st) =>
      var nrec: Rec :| s' == InflateNext(s, t, o, why, st, nrec);
      StuckInflate(s, t, s', o, why, st, nrec);
    case Overflowed(o, r) => assert Pc(s', t) == Notify(o, ROverflow, NLock);
    case Notify(o, ret, n) =>
    case Exit(o, x) => StuckExit(s, t, s', o, x);
    case Wait(o, w) => assert Pc(s', t) == Inflate(o, BeforeWait, IGetRead);
  }

  lemma {:induction false} StuckAlong(path: seq<State>, t: Tid, k: nat)
    requires AlonePath(path, t) && k < |path| && t != 0 && Inv(path[0]) && Stuck(path[0], t)
    ensures Inv(path[k]) && Stuck(path[k], t)
  {
    if k == 0 {
    } else {
      StuckAlong(path, t, k - 1);
      assert InnerStep(path, t, k - 1);
      StuckStep(path[k - 1], t, path[k]);
    }
  }

  /** Alone, it never returns: the other thread has to leave the flc_lock first. */
  lemma StuckForever(s: State, t: Tid, s': State, n: nat)
    requires Inv(s) && t != 0 && Stuck(s, t) && LeadsAlone(s, t, s', n)
    ensures !Pc(s', t).Idle?
  {
    var path: seq<State> :| |path| == n + 1 && AlonePath(path, t) && path[0] == s && path[n] == s';
    StuckAlong(path, t, n);
  }

  /** Another thread owns the monitor of o, which t tries to enter. */
  predicate LockedOut(s: State, t: Tid, o: Obj) {
    && (match Lw(s, o)
        case Thin(i, _) => i != 0 && i != t
        case Fat(r) => Mutex(s, r) != 0 && Mutex(s, r) != t && Owner(s, r) != t)
    && match Pc(s, t)
       case Enter(o', e) =>
         && o' == o
         && (match e
             case ERead => true
             case ECas(w) => !OwnThin(w, t) && (w.Fat? ==> w == Lw(s, o))
             case EOwner(r) => Lw(s, o) == Fat(r)
             case ELock(r) => Lw(s, o) == Fat(r)
             case _ => false)
       case Flc(o', _, _) => o' == o
       case _ => false
  }

  lemma LockedOutEnter(s: State, t: Tid, s': State, o: Obj, e: EnterStage)
    requires Pc(s, t) == Enter(o, e) && LockedOut(s, t, o) && EnterEnabled(s, e) && s' == EnterNext(s, t, o, e)
    ensures LockedOut(s', t, o)
  {
    match e
    case ERead => assert Pc(s', t) == Enter(o, ECas(Lw(s, o)));
    case ECas(w) => assert Pc(s', t) == AfterCas(t, o, w);
    case EOwner(r) => assert Pc(s', t) == Enter(o, ELock(r));
  }

  lemma LockedOutContends(s: State, t: Tid, s': State, o: Obj, i: Tid, f: FlcStage, found: bool)
    requires Pc(s, t) == Flc(o, i, f) && LockedOut(s, t, o) && s' == FlcNext(s, t, o, i, f, found)
    ensures LockedOut(s', t, o)
  {
    assert s'.lw == s.lw && s'.recs == s.recs;
    assert Pc(s', t) == Enter(o, ERead) || (Pc(s', t).Flc? && Pc(s', t).o == o);
  }

  lemma LockedOutStep(s: State, t: Tid, s': State, o: Obj)
    requires LockedOut(s, t, o) && OwnStep(s, t, s')
    ensures LockedOut(s', t, o)
  {
    if Pc(s, t).Enter? {
      LockedOutEnter(s, t, s', o, Pc(s, t).e);
    } else {
      var Flc(_, i, f) := Pc(s, t);
      var found: bool :| s' == FlcNext(s, t, o, i, f, found);
      LockedOutContends(s, t, s', o, i, f, found);
    }
  }

  lemma {:induction false} LockedOutAlong(path: seq<State>, t: Tid, o: Obj, k: nat)
    requires AlonePath(path, t) && k < |path| && LockedOut(path[0], t, o)
    ensures LockedOut(path[k], t, o)
  {
    if k == 0 {
    } else {
      LockedOutAlong(path, t, o, k - 1);
      assert InnerStep(path, t, k - 1);
      LockedOutStep(path[k - 1], t, path[k], o);
    }
  }

  // ---------------------------------------------------------------- whole operations

  /** At the call of its operation, t cannot return from it unless another thread moves first. */
  predicate Blocked(s: State, t: Tid) {
    (Pc(s, t).Enter? && !FreeFor(s, t, Pc(s, t).o)) || Stuck(s, t)
  }

  ghost predicate ReturnsAlone(s: State, t: Tid) {
    exists s', n: nat :: LeadsAlone(s, t, s', n) && Pc(s', t).Idle?
  }

  lemma CallUnhindered(s: State, t: Tid)
    requires IsCall(Pc(s, t)) && !Blocked(s, t)
    ensures Unhindered(s, t)
  {
  }

  lemma CallLockedOut(s: State, t: Tid)
    requires Inv(s) && t != 0 && Pc(s, t).Enter? && Pc(s, t).e.ERead? && !FreeFor(s, t, Pc(s, t).o)
    ensures LockedOut(s, t, Pc(s, t).o)
  {
    var o := Pc(s, t).o;
    assert WordOk(s, o) && TableOk(s, o);
    if Lw(s, o).Fat? { assert RecOk(s, Lw(s, o).rec); }
  }

  /**
    A thread that has called an operation returns from it alone exactly if, for an enter, the
    monitor is free or its own, and, if it has to run notify_flc_waiters, nobody else is inside its flc_lock.
   */
  lemma CallReturnsExactly(s: State, t: Tid)
    requires Inv(s) && t != 0 && IsCall(Pc(s, t))
    ensures ReturnsAlone(s, t) <==> !Blocked(s, t)
  {
    if !Blocked(s, t) {
      CallUnhindered(s, t);
      var s', n := Finishes(s, t);
    } else {
      forall s', n: nat | LeadsAlone(s, t, s', n) ensures !Pc(s', t).Idle? {
        BlockedForever(s, t, s', n);
      }
    }
  }

  lemma BlockedForever(s: State, t: Tid, s': State, n: nat)
    requires Inv(s) && t != 0 && IsCall(Pc(s, t)) && Blocked(s, t) && LeadsAlone(s, t, s', n)
    ensures !Pc(s', t).Idle?
  {
    if Stuck(s, t) {
      StuckForever(s, t, s', n);
    } else {
      CallLockedOut(s, t);
      var path: seq<State> :| |path| == n + 1 && AlonePath(path, t) && path[0] == s && path[n] == s';
      LockedOutAlong(path, t, Pc(s, t).o, n);
    }
  }

  /** What t has entered and not left is its depth, between operations and at a call. */
  lemma DepthIsHeld(s: State, t: Tid, o: Obj)
    requires Inv(s) && t != 0 && (Pc(s, t).Idle? || IsCall(Pc(s, t)))
    ensures Depth(s, t, o) == Held(s, t, o)
  {
    assert BalanceOk(s, t, o);
  }

  /** A thread that calls enter on a monitor that is free or its own enters it, alone, in boundedly many steps. */
  lemma EnterAlone(s: State, t: Tid, o: Obj) returns (s': State, n: nat)
    requires Inv(s) && t != 0 && Pc(s, t) == Enter(o, ERead) && !Blocked(s, t)
    ensures LeadsAlone(s, t, s', n) && n <= 10 * |List(s, t)| + 14 && Leads(s, s') && Pc(s', t).Idle?
    ensures Res(s', t) == Ok && MonitorOwner(s', o) == t && Depth(s', t, o) == Depth(s, t, o) + 1
  {
    CallUnhindered(s, t);
    s', n := Finishes(s, t);
    AloneLeads(s, t, s', n);
    DepthIsHeld(s, t, o);
    DepthIsHeld(s', t, o);
    DepthOwner(s, t, o);
    DepthOwner(s', t, o);
  }

  /** A thread that calls exit leaves the monitor once, or is refused exactly if it does not own it. */
  lemma ExitAlone(s: State, t: Tid, o: Obj) returns (s': State, n: nat)
    requires Inv(s) && t != 0 && Pc(s, t) == Exit(o, XRead) && !Blocked(s, t)
    ensures LeadsAlone(s, t, s', n) && n <= 10 * |List(s, t)| + 7 && Leads(s, s') && Pc(s', t).Idle?
    ensures Res(s', t) == if MonitorOwner(s, o) == t then Ok else IllegalMonitorState
    ensures Depth(s', t, o) == Depth(s, t, o) - (if MonitorOwner(s, o) == t then 1 else 0)
  {
    CallUnhindered(s, t);
    s', n := Finishes(s, t);
    AloneLeads(s, t, s', n);
    DepthIsHeld(s, t, o);
    DepthIsHeld(s', t, o);
    DepthOwner(s, t, o);
  }

  /** A notify never has to wait for anybody. */
  lemma NotifyAlone(s: State, t: Tid, o: Obj, one: bool) returns (s': State, n: nat)
    requires Inv(s) && t != 0 && Pc(s, t) == Signal(o, one, SRead)
    ensures LeadsAlone(s, t, s', n) && Leads(s, s') && Pc(s', t).Idle?
    ensures n <= if Lw(s, o).Fat? then |Waiters(s, Lw(s, o).rec)| + 3 else 1
    ensures Res(s', t) == if MonitorOwner(s, o) == t then Ok else IllegalMonitorState
    ensures Depth(s', t, o) == Depth(s, t, o)
  {
    CallUnhindered(s, t);
    s', n := Finishes(s, t);
    AloneLeads(s, t, s', n);
    DepthIsHeld(s, t, o);
    DepthIsHeld(s', t, o);
    DepthOwner(s, t, o);
  }

  /** Nor does a wait, if it is woken at once, from the call to the return. */
  lemma WaitAlone(s: State, t: Tid, o: Obj) returns (s': State, n: nat)
    requires Inv(s) && t != 0 && Pc(s, t) == Wait(o, WRead) && !Blocked(s, t)
    ensures LeadsAlone(s, t, s', n) && n <= 10 * |List(s, t)| + 25 && Leads(s, s') && Pc(s', t).Idle?
    ensures Res(s', t) == IllegalMonitorState <==> MonitorOwner(s, o) != t
    ensures Depth(s', t, o) == Depth(s, t, o)
  {
    CallUnhindered(s, t);
    s', n := Finishes(s, t);
    AloneLeads(s, t, s', n);
    DepthIsHeld(s, t, o);
    DepthIsHeld(s', t, o);
    DepthOwner(s, t, o);
  }

  /** A thread that is away in a wait returns, alone, once the monitor is free, and as deep as it was. */
  lemma WaitEndsAlone(s: State, t: Tid, o: Obj, r: Rec, saved: int, q: ParkStage) returns (s': State, n: nat)
    requires Inv(s) && t != 0 && Pc(s, t) == Park(o, r, saved, q) && (q.PSleep? || q.PLock?) && MonitorOwner(s, o) == 0
    ensures LeadsAlone(s, t, s', n) && n <= 9 && Leads(s, s') && Pc(s', t).Idle?
    ensures Res(s', t) != IllegalMonitorState && MonitorOwner(s', o) == t && Depth(s', t, o) == saved + 1
  {
    assert ThreadOk(s, t);
    s', n := Finishes(s, t);
    AloneLeads(s, t, s', n);
    DepthIsHeld(s', t, o);
    DepthOwner(s', t, o);
  }

  // ---------------------------------------------------------------- contenders

  /** Steps of w, by name of the stage. */
  lemma Contend(s: State, w: Tid, s1: State, s': State, n: nat, o: Obj, i: Tid, f: FlcStage)
    requires Pc(s, w) == Flc(o, i, f) && FlcEnabled(s, i, f, false) && s1 == FlcNext(s, w, o, i, f, false)
    requires LeadsAlone(s1, w, s', n)
    ensures LeadsAlone(s, w, s', n + 1)
  {
    assert FlcStep(s, w, s1);
    OneMore(s, w, s1, s', n);
  }

  /** Up to the point where w looks at the lockword again, inside the flc_lock of i and with the FLC bit set. */
  lemma LooksAgain(s: State, w: Tid, s3: State, s': State, n: nat, o: Obj, i: Tid)
    requires Pc(s, w) == Flc(o, i, FLock) && Lock(s, i) == 0
    requires s3 == Goto(SetBit(SetLock(s, i, w), i, true), w, Flc(o, i, FReread(Bit(s, i)))) && LeadsAlone(s3, w, s', n)
    ensures LeadsAlone(s, w, s', n + 3)
  {
    var s1 := Goto(SetLock(s, i, w), w, Flc(o, i, FReadBit));
    var s2 := Goto(s1, w, Flc(o, i, FSetBit(Bit(s, i))));
    assert s3 == FlcNext(s2, w, o, i, FSetBit(Bit(s, i)), false) by {
      assert s3.pc == s2.pc[w := Flc(o, i, FReread(Bit(s, i)))];
    }
    Contend(s2, w, s3, s', n, o, i, FSetBit(Bit(s, i)));
    Contend(s1, w, s2, s', n + 1, o, i, FReadBit);
    Contend(s, w, s1, s', n + 2, o, i, FLock);
  }

  lemma Enqueues(s: State, w: Tid, o: Obj, i: Tid, prev: bool) returns (s': State)
    requires Pc(s, w) == Flc(o, i, FReread(prev)) && OwnThin(Lw(s, o), i)
    ensures LeadsAlone(s, w, s', 3) && Pc(s', w) == Flc(o, i, FSleep) && Lock(s', i) == 0
    ensures Bit(s', i) == Bit(s, i) && List(s', i) == [w] + List(s, i) && Fobj(s', w) == Some(o)
    ensures s'.lw == s.lw && s'.recs == s.recs && s'.hist == s.hist
  {
    var s1 := Goto(s, w, Flc(o, i, FEnqueue));
    var s2 := FlcNext(s1, w, o, i, FEnqueue, false);
    s' := FlcNext(s2, w, o, i, FCheck, false);
    NoStep(s', w);
    Contend(s2, w, s', s', 0, o, i, FCheck);
    Contend(s1, w, s2, s', 1, o, i, FEnqueue);
    Contend(s, w, s1, s', 2, o, i, FReread(prev));
  }

  lemma Leaves(s: State, w: Tid, o: Obj, i: Tid, prev: bool) returns (s': State)
    requires Pc(s, w) == Flc(o, i, FReread(prev)) && !OwnThin(Lw(s, o), i)
    ensures LeadsAlone(s, w, s', 3) && Pc(s', w) == Enter(o, ERead) && Lock(s', i) == 0 && Bit(s', i) == prev
    ensures s'.flc.list == s.flc.list && s'.flc.fobj == s.flc.fobj
    ensures s'.lw == s.lw && s'.recs == s.recs && s'.hist == s.hist
  {
    var s1 := Goto(s, w, Flc(o, i, FRestore(prev)));
    var s2 := FlcNext(s1, w, o, i, FRestore(prev), false);
    s' := FlcNext(s2, w, o, i, FUnlock, false);
    NoStep(s', w);
    Contend(s2, w, s', s', 0, o, i, FUnlock);
    Contend(s1, w, s2, s', 1, o, i, FRestore(prev));
    Contend(s, w, s1, s', 2, o, i, FReread(prev));
  }

  /** A contender that finds o still locked by i heads the list of i, and sleeps outside the flc_lock. */
  lemma ContenderQueues(s: State, w: Tid, o: Obj, i: Tid) returns (s': State)
    requires w != 0 && i != 0 && Pc(s, w) == Flc(o, i, FLock) && Lock(s, i) == 0 && OwnThin(Lw(s, o), i)
    ensures LeadsAlone(s, w, s', 6) && Pc(s', w) == Flc(o, i, FSleep) && Lock(s', i) == 0
    ensures Bit(s', i) && List(s', i) == [w] + List(s, i) && Fobj(s', w) == Some(o)
    ensures s'.lw == s.lw && s'.recs == s.recs && s'.hist == s.hist
  {
    var s3 := Goto(SetBit(SetLock(s, i, w), i, true), w, Flc(o, i, FReread(Bit(s, i))));
    s' := Enqueues(s3, w, o, i, Bit(s, i));
    LooksAgain(s, w, s3, s', 3, o, i);
  }

  /** One that finds that i has let go of o tries to enter again, and leaves no trace. */
  lemma ContenderRetries(s: State, w: Tid, o: Obj, i: Tid) returns (s': State)
    requires w != 0 && i != 0 && Pc(s, w) == Flc(o, i, FLock) && Lock(s, i) == 0 && !OwnThin(Lw(s, o), i)
    ensures LeadsAlone(s, w, s', 6) && Pc(s', w) == Enter(o, ERead)
    ensures Lock(s', i) == 0 && Bit(s', i) == Bit(s, i) && s'.flc.list == s.flc.list && s'.flc.fobj == s.flc.fobj
    ensures s'.lw == s.lw && s'.recs == s.recs && s'.hist == s.hist
  {
    var s3 := Goto(SetBit(SetLock(s, i, w), i, true), w, Flc(o, i, FReread(Bit(s, i))));
    s' := Leaves(s3, w, o, i, Bit(s, i));
    LooksAgain(s, w, s3, s', 3, o, i);
  }

  /** w has been woken, or t still has to wake it. */
  ghost predicate WakeDue(s: State, t: Tid, w: Tid) {
    Fobj(s, w) == None || (w in List(s, t) && NotifyObj(Pc(s, t)).Some?)
  }

  lemma WakeStep(s: State, t: Tid, s': State, w: Tid)
    requires Inv(s) && t != 0 && OwnStep(s, t, s') && Marked(s', t) && WakeDue(s, t, w) && w != t
    ensures WakeDue(s', t, w)
  {
    assert Ready(s, t);
    StepKept(s, t, s');
    WakeKept(s, t, s', w);
    if Fobj(s, w) != None { S.ObligationKept(s, t, s'); }
  }

  lemma WakeKept(s: State, t: Tid, s': State, w: Tid)
    requires GuarFlc(s, t, s') && w != t
    ensures Fobj(s, w) == None ==> Fobj(s', w) == None
    ensures w in List(s, t) ==> w in List(s', t) || Fobj(s', w) == None
  {
    assert s'.flc == s.flc || (ListChange(s, t, s', t) && FobjChange(s, t, s', w));
  }

  /** What an unhindered thread and the contenders it has to wake can rely on, step by step. */
  lemma DueStep(s: State, t: Tid, s': State, w: Tid)
    requires Inv(s) && t != 0 && w != t && !Pc(s, t).Idle? && Unhindered(s, t) && WakeDue(s, t, w) && OwnStep(s, t, s')
    ensures Inv(s') && WakeDue(s', t, w) && (Pc(s', t).Idle? || Unhindered(s', t))
  {
    StepAdvances(s, t, s');
    OwnStepKeepsInv(s, t, s');
    WakeStep(s, t, s', w);
  }

  lemma {:induction false} DueAlong(path: seq<State>, t: Tid, w: Tid, k: nat)
    requires AlonePath(path, t) && k < |path| && t != 0 && w != t
    requires Inv(path[0]) && Unhindered(path[0], t) && WakeDue(path[0], t, w)
    ensures Inv(path[k]) && WakeDue(path[k], t, w) && (Pc(path[k], t).Idle? || Unhindered(path[k], t))
  {
    if k == 0 {
    } else {
      DueAlong(path, t, w, k - 1);
      assert InnerStep(path, t, k - 1);
      DueStep(path[k - 1], t, path[k], w);
    }
  }

  /** A thread that has to notify, alone, wakes every contender in its list before it returns. */
  lemma ContendersWoken(s: State, t: Tid, w: Tid) returns (s': State, n: nat)
    requires Inv(s) && t != 0 && NotifyObj(Pc(s, t)).Some? && w in List(s, t) && LockFree(s, t, t)
    ensures LeadsAlone(s, t, s', n) && Pc(s', t).Idle? && Fobj(s', w) == None
  {
    assert FlcOk(s, t);
    ListMember(s, t, w);
    s', n := Finishes(s, t);
    var path: seq<State> :| |path| == n + 1 && AlonePath(path, t) && path[0] == s && path[n] == s';
    DueAlong(path, t, w, n);
  }
}
