/**
  No contended waiter is lost, inflation is always legal and never blocks, and the assertions of
  the protocol hold: for every run, up to the first failure of the assertion at lock.cpp line 703.
  When that one fails is the subject of `MonitorReuse`.
 */
module MonitorSafety {
  import opened MonitorModel
  import opened MonitorInv
  import opened MonitorFrames
  import opened MonitorSteps
  import opened MonitorTheorems

  // ---------------------------------------------------------------- contention

  /**
    A contender w that has queued itself on t's list for o and has not been woken is in the
    list, t's FLC bit is set, and t still owns o or has to run notify_flc_waiters first.
   */
  lemma NoLostWaiter(run: seq<State>, actor: seq<Tid>, k: nat, w: Tid, t: Tid, o: Obj)
    requires IsRun(run, actor) && k < |run| && Upheld(run, k) && w != 0 && t != 0
    requires Queued(Pc(run[k], w), t) && Pc(run[k], w).o == o && Fobj(run[k], w) != None
    ensures Fobj(run[k], w) == Some(o) && w in List(run[k], t) && Bit(run[k], t) && Pending(run[k], o, t)
  {
    RunInv(run, actor, k);
    var s := run[k];
    assert ThreadOk(s, w) && FlcOk(s, t);
    var j :| 0 <= j < |List(s, t)| && List(s, t)[j] == w;
    assert EntryOk(s, t, j);
  }

  /** A thread that has to notify does nothing else with monitors as long as its list is not empty. */
  lemma {:induction false} MustNotify(run: seq<State>, actor: seq<Tid>, i: nat, j: nat, t: Tid)
    requires IsRun(run, actor) && i <= j < |run| && Upheld(run, j) && t != 0 && NotifyObj(Pc(run[i], t)).Some?
    requires forall k :: i <= k < j ==> List(run[k], t) != []
    ensures NotifyObj(Pc(run[j], t)) == NotifyObj(Pc(run[i], t))
    decreases j - i
  {
    if i == j {
    } else {
      ObligationStays(run, actor, i, t);
      MustNotify(run, actor, i + 1, j, t);
    }
  }

  lemma ObligationStays(run: seq<State>, actor: seq<Tid>, k: nat, t: Tid)
    requires IsRun(run, actor) && k < |actor| && Upheld(run, k + 1) && t != 0
    requires NotifyObj(Pc(run[k], t)).Some? && List(run[k], t) != []
    ensures NotifyObj(Pc(run[k + 1], t)) == NotifyObj(Pc(run[k], t))
  {
    RunInv(run, actor, k);
    assert StepAt(run, actor, k);
    var s, u, s' := run[k], actor[k], run[k + 1];
    if u == t {
      ObligationKept(s, t, s');
    } else if OwnStep(s, u, s') {
      assert Ready(s, u) && AllMarked(s');
      StepKept(s, u, s');
    }
  }

  lemma ObligationKept(s: State, t: Tid, s': State)
    requires Inv(s) && Step(s, t, s') && NotifyObj(Pc(s, t)).Some? && List(s, t) != []
    ensures NotifyObj(Pc(s', t)) == NotifyObj(Pc(s, t))
  {
    assert ThreadOk(s, t) && FlcOk(s, t);
    if InterruptStep(s, t, s') {
    } else if Pc(s, t).Notify? {
      NotifyGoesOn(s, t, s');
    } else if Pc(s, t).Inflate? {
      InflateGoesOn(s, t, s');
    } else if Pc(s, t).Exit? {
      assert Pc(s', t) == Notify(Pc(s, t).o, RExit, NLock);
    } else {
      assert Pc(s', t) == Notify(Pc(s, t).o, ROverflow, NLock);
    }
  }

  lemma NotifyGoesOn(s: State, t: Tid, s': State)
    requires NotifyFlcStep(s, t, s') && !Pc(s, t).n.NUnlock?
    ensures NotifyObj(Pc(s', t)) == NotifyObj(Pc(s, t))
  {
    var Notify(o, ret, n) := Pc(s, t);
    match n
    case NLock => assert Pc(s', t) == Notify(o, ret, NLoop(0));
    case NLoop(pos) => assert Pc(s', t).Notify?;
    case NWord(pos) => assert s' == s || Pc(s', t).Notify? || Pc(s', t).Inflate?;
    case NWake(pos) => assert s' == s || Pc(s', t) == Notify(o, ret, NLoop(pos + 1));
    case NClear => assert Pc(s', t) == Notify(o, ret, NUnlock);
  }

  lemma InflateGoesOn(s: State, t: Tid, s': State)
    requires InflateStep(s, t, s') && Pc(s, t).why.InNotify?
    ensures NotifyObj(Pc(s', t)) == NotifyObj(Pc(s, t))
  {
    var Inflate(o, why, st) := Pc(s, t);
    var nrec :| InflateEnabled(s, st, nrec) && s' == InflateNext(s, t, o, why, st, nrec);
    InflateTarget(s, t, s', o, why, st, nrec);
  }

  lemma InflateTarget(s: State, t: Tid, s': State, o: Obj, why: Why, st: InflateStage, nrec: Rec)
    requires s' == InflateNext(s, t, o, why, st, nrec)
    ensures
      || (exists st' :: Pc(s', t) == Inflate(o, why, st'))
      || (exists r :: Pc(s', t) == AfterInflate(o, r, why))
  {
    match st
    case IGetRead => assert Pc(s', t) == Inflate(o, why, Pc(s', t).st);
    case IGetTable => assert Pc(s', t) == Inflate(o, why, Pc(s', t).st);
    case ILock(r) => assert Pc(s', t) == Inflate(o, why, IOwner(r));
    case IOwner(r) => assert Pc(s', t) == Inflate(o, why, IRead(r));
    case IRead(r) => assert Pc(s', t) == AfterInflate(o, r, why) || Pc(s', t) == Inflate(o, why, Pc(s', t).st);
    case ICount(r, c) => assert Pc(s', t) == Inflate(o, why, ISet(r));
    case ISet(r) => assert Pc(s', t) == AfterInflate(o, r, why);
  }

  // ---------------------------------------------------------------- inflation

  /** An inflated lock is never deflated, and its record never changes. */
  lemma {:induction false} FatForever(run: seq<State>, actor: seq<Tid>, i: nat, j: nat, o: Obj)
    requires IsRun(run, actor) && i <= j < |run| && Upheld(run, j) && Lw(run[i], o).Fat?
    ensures Lw(run[j], o) == Lw(run[i], o)
    decreases j
  {
    if i == j {
    } else {
      FatForever(run, actor, i, j - 1, o);
      StaysFat(run, actor, j - 1, o);
    }
  }

  lemma StaysFat(run: seq<State>, actor: seq<Tid>, i: nat, o: Obj)
    requires IsRun(run, actor) && i < |actor| && Upheld(run, i + 1) && Lw(run[i], o).Fat?
    ensures Lw(run[i + 1], o) == Lw(run[i], o)
  {
    RunInv(run, actor, i);
    assert StepAt(run, actor, i);
    var s, t, s' := run[i], actor[i], run[i + 1];
    if OwnStep(s, t, s') {
      assert Ready(s, t) && AllMarked(s');
      StepKept(s, t, s');
      assert s'.lw == s.lw || WordChange(Lw(s, o), Lw(s', o), t);
    }
  }

  /**
    Whoever inflates the lock of o owns it; the mutex of the record is then free until the
    owner enters it, so the inflation does not block.  It happens in an enter only when the
    lockword cannot count any further, and in notify_flc_waiters only for a contender of o.
   */
  lemma InflationLegal(run: seq<State>, actor: seq<Tid>, k: nat, t: Tid)
    requires IsRun(run, actor) && k < |run| && Upheld(run, k) && t != 0 && Pc(run[k], t).Inflate?
    ensures OwnThin(Lw(run[k], Pc(run[k], t).o), t)
    ensures Pc(run[k], t).st.ILock? ==> Mutex(run[k], Pc(run[k], t).st.r) == 0
    ensures Pc(run[k], t).st.ISet? ==> Count(run[k], Pc(run[k], t).st.r) == Lw(run[k], Pc(run[k], t).o).count
    ensures Pc(run[k], t).why.Overflow? ==> Lw(run[k], Pc(run[k], t).o).count == THIN_LOCK_COUNT_MAX
    ensures Pc(run[k], t).why.InNotify? ==> exists w :: w in List(run[k], t) && Fobj(run[k], w) == Some(Pc(run[k], t).o)
  {
    RunInv(run, actor, k);
    var s := run[k];
    assert ThreadOk(s, t);
    if Pc(s, t).st.ILock? {
      assert TableOk(s, Pc(s, t).o) && RecOk(s, Pc(s, t).st.r);
    }
  }

  /** notify_flc_waiters leaves neither a queued contender nor the FLC bit behind. */
  lemma NothingLeftBehind(run: seq<State>, actor: seq<Tid>, k: nat, t: Tid)
    requires IsRun(run, actor) && k < |actor| && Upheld(run, k + 1) && t != 0 && actor[k] == t
    requires NotifyObj(Pc(run[k], t)).Some? && NotifyObj(Pc(run[k + 1], t)).None?
    ensures List(run[k + 1], t) == [] && !Bit(run[k + 1], t)
  {
    RunInv(run, actor, k);
    assert StepAt(run, actor, k) && ThreadOk(run[k], t);
    LeavesNotify(run[k], t, run[k + 1]);
  }

  lemma LeavesNotify(s: State, t: Tid, s': State)
    requires Step(s, t, s') && NotifyObj(Pc(s, t)).Some? && NotifyObj(Pc(s', t)).None? && ThreadOk(s, t)
    requires FlcOk(s, t)
    ensures List(s', t) == [] && !Bit(s', t)
  {
    if OwnStep(s, t, s') {
      match Pc(s, t)
      case Notify(o, ret, n) =>
        if n.NUnlock? { UnlockLeaves(s, t, s', o, ret); } else { NotifyGoesOn(s, t, s'); }
      case Inflate(_, _, _) => InflateGoesOn(s, t, s');
      case Exit(o, _) => BitUnset(s, t, s', o);
      case Overflowed(_, _) =>
    }
  }

  lemma UnlockLeaves(s: State, t: Tid, s': State, o: Obj, ret: Ret)
    requires s' == AfterNotify(SetLock(s, t, 0), t, o, ret)
    ensures List(s', t) == List(s, t) && Bit(s', t) == Bit(s, t)
  {
  }

  lemma BitUnset(s: State, t: Tid, s': State, o: Obj)
    requires s' == ExitNext(s, t, o, XBit) && NotifyObj(Pc(s', t)).None? && FlcOk(s, t)
    ensures List(s', t) == [] && !Bit(s', t)
  {
  }

  /** A lock becomes fat only by an inflation. */
  lemma FattenedBy(run: seq<State>, actor: seq<Tid>, k: nat, o: Obj)
    requires IsRun(run, actor) && k < |actor| && Upheld(run, k + 1) && Lw(run[k], o).Thin? && Lw(run[k + 1], o).Fat?
    ensures Pc(run[k], actor[k]).Inflate? && Pc(run[k], actor[k]).o == o && OwnThin(Lw(run[k], o), actor[k])
  {
    RunInv(run, actor, k);
    assert StepAt(run, actor, k);
    var s, t, s' := run[k], actor[k], run[k + 1];
    assert ThreadOk(s, t);
    if Pc(s, t).Inflate? {
      InflatesOnly(s, t, s', Pc(s, t).o);
    } else {
      NoFattening(s, t, s', o);
    }
  }

  lemma InflatesOnly(s: State, t: Tid, s': State, o: Obj)
    requires InflateStep(s, t, s') || s'.lw == s.lw
    requires Pc(s, t).Inflate? && Pc(s, t).o == o
    ensures forall o': Obj :: o' != o ==> Lw(s', o') == Lw(s, o')
  {
  }

  lemma NoFattening(s: State, t: Tid, s': State, o: Obj)
    requires Step(s, t, s') && !Pc(s, t).Inflate? && Lw(s, o).Thin? && ThreadOk(s, t)
    ensures Lw(s', o).Thin?
  {
    if EnterStep(s, t, s') { EnterThin(s, t, s', Pc(s, t).o, Pc(s, t).e, o); }
    else if ExitStep(s, t, s') { ExitThin(s, t, s', Pc(s, t).o, Pc(s, t).x, o); }
    else if FlcStep(s, t, s') { FlcWords(s, t, s'); }
    else if NotifyFlcStep(s, t, s') { NotifyWords(s, t, s'); }
    else if WaitStep(s, t, s') { WaitWords(s, t, s'); }
    else if ParkStep(s, t, s') { ParkWords(s, t, s'); }
    else if SignalStep(s, t, s') { SignalWords(s, t, s'); }
  }

  lemma EnterThin(s: State, t: Tid, s': State, o: Obj, e: EnterStage, o': Obj)
    requires s' == EnterNext(s, t, o, e) && EnterOk(s, t, o, e) && Lw(s, o').Thin?
    ensures Lw(s', o').Thin?
  {
  }

  lemma ExitThin(s: State, t: Tid, s': State, o: Obj, x: ExitStage, o': Obj)
    requires s' == ExitNext(s, t, o, x) && ExitOk(s, t, o, x) && Lw(s, o').Thin?
    ensures Lw(s', o').Thin?
  {
  }

  lemma FlcWords(s: State, t: Tid, s': State)
    requires FlcStep(s, t, s')
    ensures s'.lw == s.lw
  {
  }

  lemma NotifyWords(s: State, t: Tid, s': State)
    requires NotifyFlcStep(s, t, s')
    ensures s'.lw == s.lw
  {
  }

  lemma WaitWords(s: State, t: Tid, s': State)
    requires WaitStep(s, t, s')
    ensures s'.lw == s.lw
  {
  }

  lemma ParkWords(s: State, t: Tid, s': State)
    requires ParkStep(s, t, s')
    ensures s'.lw == s.lw
  {
  }

  lemma SignalWords(s: State, t: Tid, s': State)
    requires SignalStep(s, t, s')
    ensures s'.lw == s.lw
  {
  }

  /** While a lockword is thin, only its owner in the middle of an inflation is inside the mutex of its record. */
  lemma ThinRecordFree(run: seq<State>, actor: seq<Tid>, k: nat, o: Obj)
    requires IsRun(run, actor) && k < |run| && Upheld(run, k) && Lw(run[k], o).Thin? && o in run[k].recs.table
    ensures var m := Mutex(run[k], run[k].recs.table[o]);
            m == 0 || (OwnThin(Lw(run[k], o), m) && MidInflation(Pc(run[k], m), o, run[k].recs.table[o]))
  {
    RunInv(run, actor, k);
    assert TableOk(run[k], o) && RecOk(run[k], run[k].recs.table[o]);
  }

  /** The objects that notify_flc_waiters inflates on the way are owned by the notifying thread. */
  lemma NotifierOwns(run: seq<State>, actor: seq<Tid>, k: nat, t: Tid, j: nat)
    requires IsRun(run, actor) && k < |run| && Upheld(run, k) && t != 0
    requires Pc(run[k], t).Notify? && !Pc(run[k], t).n.NLock?
    requires j < |List(run[k], t)| && Fobj(run[k], List(run[k], t)[j]).Some?
    ensures var o := Fobj(run[k], List(run[k], t)[j]).value;
            o != Pc(run[k], t).o && Lw(run[k], o).Thin? ==> OwnThin(Lw(run[k], o), t)
  {
    RunInv(run, actor, k);
    assert FlcOk(run[k], t) && EntryOk(run[k], t, j);
  }

  // ---------------------------------------------------------------- assertions of the source

  /** The assertion guarding the next step of t, if it has one other than the one at line 703. */
  ghost predicate AssertionHolds(s: State, t: Tid) {
    match Pc(s, t)
    // increase_thin_lock_count: lockword.hpp line 201
    case Enter(o, EIncRead) => Lw(s, o).Thin? && Lw(s, o).count < THIN_LOCK_COUNT_MAX
    // lock_monitor_enter: lock.cpp line 861
    case Enter(o, ESetOwner(r)) => Count(s, r) == 0
    // Lockword::inflate: lockword.cpp lines 48 and 53
    case Inflate(o, why, IRead(r)) => if Lw(s, o).Fat? then Lw(s, o) == Fat(r) else Lw(s, o).tid == t
    // decrease_thin_lock_count: lockword.hpp line 210
    case Exit(o, XDecRead) => Lw(s, o).Thin? && Lw(s, o).count > 0
    case _ => true
  }

  lemma AssertionsNeverFail(run: seq<State>, actor: seq<Tid>, k: nat, t: Tid)
    requires IsRun(run, actor) && k < |run| && Upheld(run, k) && t != 0
    ensures AssertionHolds(run[k], t)
  {
    RunInv(run, actor, k);
    var s := run[k];
    assert ThreadOk(s, t);
  }

  // ---------------------------------------------------------------- wait and notify

  /** The waiters of a record are the threads between registration and removal. */
  lemma WaitersExact(run: seq<State>, actor: seq<Tid>, k: nat, w: Tid, r: Rec)
    requires IsRun(run, actor) && k < |run| && Upheld(run, k) && w != 0
    ensures w in Waiters(run[k], r) <==> WaitingOn(Pc(run[k], w)) == Some(r)
    ensures Distinct(Waiters(run[k], r))
    ensures Signaled(run[k], w) ==>
              MayBeSignaled(Pc(run[k], w))
  {
    RunInv(run, actor, k);
    assert WaitOk(run[k], r) && ThreadOk(run[k], w);
  }

  /**
    A parked thread has given the monitor up completely; when it goes on it owns it as deeply
    as it had entered it.
   */
  lemma WaitReleasesAndRestores(run: seq<State>, actor: seq<Tid>, k: nat, t: Tid)
    requires IsRun(run, actor) && k < |run| && Upheld(run, k) && t != 0
    ensures Pc(run[k], t).Park? && (Pc(run[k], t).q.PSleep? || Pc(run[k], t).q.PLock?) ==>
              Depth(run[k], t, Pc(run[k], t).o) == 0 && MonitorOwner(run[k], Pc(run[k], t).o) != t
    ensures Reporting(Pc(run[k], t)) ==>
              && MonitorOwner(run[k], Pc(run[k], t).o) == t
              && Depth(run[k], t, Pc(run[k], t).o) == Held(run[k], t, Pc(run[k], t).o)
  {
    RunInv(run, actor, k);
    var s := run[k];
    if Pc(s, t).Park? || Pc(s, t).Wait? {
      var o := Pc(s, t).o;
      assert BalanceOk(s, t, o) && ThreadOk(s, t);
      DepthOwner(s, t, o);
    }
  }
}
