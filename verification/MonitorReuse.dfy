/**
  The assertion at lock.cpp line 703, and what the reuse of thread objects has to do with it.

  thread_new resets the FLC bit of a reused thread object without its flc_lock.  A contender that
  has set the bit and has not yet looked at the lockword again does not notice.  If the reused
  thread takes the very monitor before that second look, the contender queues on it with the bit
  clear, and the assertion fails.
 */
module MonitorReuse {
  import opened MonitorModel
  import opened MonitorInv
  import opened MonitorFrames
  import opened MonitorSteps
  import opened MonitorPaths

  /** w has set the FLC bit of i and has not yet looked at the lockword again. */
  predicate Between(s: State, w: Tid, i: Tid) { Pc(s, w).Flc? && Pc(s, w).i == i && Pc(s, w).f.FReread? }

  /** The bit of i is gone, and i owns the monitor that w is about to look at again. */
  predicate Exposed(s: State, w: Tid) {
    && Pc(s, w).Flc? && Pc(s, w).f.FReread?
    && !Bit(s, Pc(s, w).i) && OwnThin(Lw(s, Pc(s, w).o), Pc(s, w).i)
  }

  /** A contender that is about to queue finds the bit set. */
  predicate Queueable(s: State, w: Tid) { Pc(s, w).Flc? && Pc(s, w).f.FEnqueue? ==> Bit(s, Pc(s, w).i) }

  /** So far no contender has been overlooked. */
  ghost predicate Sound(s: State) {
    && Inv(s)
    && (forall w: Tid :: w != 0 ==> Marked(s, w))
    && (forall w: Tid :: w != 0 ==> Queueable(s, w))
  }

  // ---------------------------------------------------------------- the assertion fails only after an exposure

  lemma EnterArrives(s: State, t: Tid, s': State)
    requires EnterStep(s, t, s')
    ensures Pc(s', t).Flc? ==> Pc(s', t).f.FLookup?
  {
  }

  lemma InflateArrives(s: State, t: Tid, s': State)
    requires InflateStep(s, t, s')
    ensures !Pc(s', t).Flc?
  {
  }

  lemma NotifyArrives(s: State, t: Tid, s': State)
    requires NotifyFlcStep(s, t, s')
    ensures !Pc(s', t).Flc?
  {
  }

  lemma ExitArrives(s: State, t: Tid, s': State)
    requires ExitStep(s, t, s')
    ensures !Pc(s', t).Flc?
  {
  }

  lemma WaitArrives(s: State, t: Tid, s': State)
    requires WaitStep(s, t, s')
    ensures !Pc(s', t).Flc?
  {
  }

  lemma ParkArrives(s: State, t: Tid, s': State)
    requires ParkStep(s, t, s')
    ensures !Pc(s', t).Flc?
  {
  }

  lemma SignalArrives(s: State, t: Tid, s': State)
    requires SignalStep(s, t, s')
    ensures !Pc(s', t).Flc?
  {
  }

  /** Contention begins with the lookup of the owner. */
  lemma Arrives(s: State, t: Tid, s': State)
    requires OwnStep(s, t, s') && !Pc(s, t).Flc?
    ensures Pc(s', t).Flc? ==> Pc(s', t).f.FLookup?
  {
    if EnterStep(s, t, s') { EnterArrives(s, t, s'); }
    else if InflateStep(s, t, s') { InflateArrives(s, t, s'); }
    else if NotifyFlcStep(s, t, s') { NotifyArrives(s, t, s'); }
    else if ExitStep(s, t, s') { ExitArrives(s, t, s'); }
    else if WaitStep(s, t, s') { WaitArrives(s, t, s'); }
    else if ParkStep(s, t, s') { ParkArrives(s, t, s'); }
    else if SignalStep(s, t, s') { SignalArrives(s, t, s'); }
  }

  lemma SoundSelf(s: State, t: Tid, s': State)
    requires ThreadOk(s, t) && SharedInv(s) && t != 0 && OwnStep(s, t, s')
    requires Marked(s, t) && Queueable(s, t) && !Exposed(s, t)
    ensures Marked(s', t) && Queueable(s', t)
  {
    if Pc(s, t).Flc? {
      var Flc(o, i, f) := Pc(s, t);
      var found: bool :| s' == FlcNext(s, t, o, i, f, found);
      if f.FSleep? { assert FlcOk(s, i); }
      SoundContender(s, t, s', o, i, f, found);
    } else {
      Arrives(s, t, s');
    }
  }

  lemma SoundContender(s: State, t: Tid, s': State, o: Obj, i: Tid, f: FlcStage, found: bool)
    requires Pc(s, t) == Flc(o, i, f) && s' == FlcNext(s, t, o, i, f, found)
    requires (f.FReread? && OwnThin(Lw(s, o), i)) || f.FEnqueue? || (f.FSleep? && Fobj(s, t) != None) ==> Bit(s, i)
    ensures Marked(s', t) && Queueable(s', t)
  {
  }

  lemma SoundOther(s: State, t: Tid, s': State, w: Tid)
    requires ThreadOk(s, w) && w != 0 && w != t && GuarThreads(s, t, s') && GuarFlc(s, t, s')
    requires Marked(s, w) && Queueable(s, w)
    ensures Marked(s', w) && Queueable(s', w)
  {
    assert Pc(s', w) == Pc(s, w);
    if Pc(s, w).Flc? {
      assert s'.flc == s.flc || (ListChange(s, t, s', Pc(s, w).i) && FobjChange(s, t, s', w));
    }
  }

  lemma SoundReuse(s: State, t: Tid, w: Tid)
    requires Sound(s) && Finished(s, t) && t != 0 && w != 0
    ensures Marked(Recycled(s, t), w) && Queueable(Recycled(s, t), w)
  {
    assert ThreadOk(s, t) && ThreadOk(s, w) && Marked(s, w) && Queueable(s, w);
    FinishedAlone(s, t);
  }

  lemma OwnStepSound(s: State, t: Tid, s': State)
    requires Sound(s) && OwnStep(s, t, s') && t != 0 && !Exposed(s, t)
    ensures Sound(s')
  {
    assert ThreadOk(s, t) && Marked(s, t) && Queueable(s, t) && Ready(s, t);
    SoundSelf(s, t, s');
    OwnStepKeepsInv(s, t, s');
    StepKept(s, t, s');
    forall w: Tid | w != 0 ensures Marked(s', w) && Queueable(s', w) {
      assert ThreadOk(s, w) && Marked(s, w) && Queueable(s, w);
      if w != t { SoundOther(s, t, s', w); }
    }
  }

  lemma StepSound(s: State, t: Tid, s': State)
    requires Sound(s) && Step(s, t, s') && !Exposed(s, t)
    ensures Sound(s')
  {
    if OwnStep(s, t, s') {
      OwnStepSound(s, t, s');
    } else if RecycleStep(s, t, s') {
      ReuseSound(s, t);
    } else {
      var b: bool :| s' == SetInterrupted(s, t, b);
      InterruptKeepsInv(s, t, b);
      forall w: Tid | w != 0 ensures Marked(s', w) && Queueable(s', w) {
        assert Marked(s, w) && Queueable(s, w);
      }
    }
  }

  /** Nothing but the lists, flags and bits of t differs between s and s', where they are as in a new thread object. */
  ghost predicate AsNew(s: State, t: Tid, s': State) {
    && !Bit(s', t) && List(s', t) == [] && Fobj(s', t) == None && !Signaled(s', t) && !IsInterrupted(s', t)
    && s'.lw == s.lw && s'.recs == s.recs && s'.pc == s.pc && s'.hist == s.hist && s'.flc.lock == s.flc.lock
    && forall u: Tid :: u != t ==>
         && Bit(s', u) == Bit(s, u) && List(s', u) == List(s, u) && Fobj(s', u) == Fobj(s, u)
         && Signaled(s', u) == Signaled(s, u) && IsInterrupted(s', u) == IsInterrupted(s, u)
  }

  lemma MadeNew(s: State, t: Tid)
    ensures AsNew(s, t, Recycled(s, t))
  {
  }

  /** The reuse makes t a new thread; by itself it overlooks nobody. */
  lemma ReuseSound(s: State, t: Tid)
    requires Sound(s) && Finished(s, t) && t != 0
    ensures Sound(Recycled(s, t)) && AsNew(s, t, Recycled(s, t))
  {
    MadeNew(s, t);
    RecycleKeepsInv(s, t);
    forall w: Tid | w != 0 ensures Marked(Recycled(s, t), w) && Queueable(Recycled(s, t), w) {
      SoundReuse(s, t, w);
    }
  }

  ghost predicate Unexposed(s: State) { forall w: Tid :: w != 0 ==> !Exposed(s, w) }

  lemma {:induction false} PathSound(run: seq<State>, actor: seq<Tid>, k: nat)
    requires IsPath(run, actor) && Sound(run[0]) && k < |run|
    requires forall j :: 0 <= j < k ==> Unexposed(run[j])
    ensures Sound(run[k])
  {
    if k == 0 {
    } else {
      PathSound(run, actor, k - 1);
      assert StepAt(run, actor, k - 1) && Unexposed(run[k - 1]);
      StepSound(run[k - 1], actor[k - 1], run[k]);
    }
  }

  // ---------------------------------------------------------------- an exposure leads to a failure

  /** Two steps of an exposed contender, and the assertion fails. */
  lemma ExposureFails(s: State, s1: State, w: Tid) returns (s2: State)
    requires Leads(s, s1) && w != 0 && Exposed(s1, w)
    ensures Leads(s, s2) && !Marked(s2, w)
  {
    var Flc(o, i, f) := Pc(s1, w);
    Contends(s, s1, w, false);
    s2 := FlcNext(s1, w, o, i, f, false);
    Contends(s, s2, w, false);
    s2 := FlcNext(s2, w, o, i, FEnqueue, false);
  }

  ghost predicate CanFail(s: State) { exists s': State, w: Tid :: w != 0 && Leads(s, s') && !Marked(s', w) }

  ghost predicate CanExpose(s: State) { exists s': State, w: Tid :: w != 0 && Leads(s, s') && Exposed(s', w) }

  lemma SoundFailsExactly(s: State)
    requires Sound(s)
    ensures CanFail(s) <==> CanExpose(s)
  {
    if CanExpose(s) {
      var s1, w :| w != 0 && Leads(s, s1) && Exposed(s1, w);
      var s2 := ExposureFails(s, s1, w);
    }
    if CanFail(s) && !CanExpose(s) {
      var s1, w :| w != 0 && Leads(s, s1) && !Marked(s1, w);
      var run, actor :| IsPath(run, actor) && run[0] == s && run[|run| - 1] == s1;
      forall j | 0 <= j < |run| ensures Unexposed(run[j]) { OnThePath(run, actor, j); }
      PathSound(run, actor, |run| - 1);
    }
  }

  /** A contender has been overlooked: it is about to queue on a thread without FLC bit. */
  ghost predicate Overlooked(s: State) { exists w: Tid :: w != 0 && !Queueable(s, w) }

  lemma OverlookedFails(s: State)
    requires Overlooked(s)
    ensures CanFail(s)
  {
    var w: Tid :| w != 0 && !Queueable(s, w);
    LeadsNowhere(s);
    Contends(s, s, w, false);
    var s' := FlcNext(s, w, Pc(s, w).o, Pc(s, w).i, FEnqueue, false);
    assert !Marked(s', w);
  }

  /**
    After any state of any run in which the assertion has not failed yet, it can fail if and only
    if a contender has been overlooked already, or a state can be reached in which a thread without
    FLC bit owns the monitor that a contender of it is about to look at again.
   */
  lemma FailsExactly(run: seq<State>, actor: seq<Tid>, k: nat)
    requires IsRun(run, actor) && k < |run| && Upheld(run, k)
    ensures CanFail(run[k]) <==> Overlooked(run[k]) || CanExpose(run[k])
  {
    if Overlooked(run[k]) {
      OverlookedFails(run[k]);
    } else {
      RunInv(run, actor, k);
      assert AllMarked(run[k]);
      SoundFailsExactly(run[k]);
    }
  }

  // ---------------------------------------------------------------- when a reuse is harmless

  /** The lock of o is inflated, or a thread other than i is about to inflate it. */
  predicate Covered(s: State, o: Obj, i: Tid) {
    || Lw(s, o).Fat?
    || (Lw(s, o).tid != i && Lw(s, o).tid != 0 && Pc(s, Lw(s, o).tid).Inflate? && Pc(s, Lw(s, o).tid).o == o)
  }

  /** Every contender between its two looks has marked the owner, or will not queue on it. */
  predicate Safe(s: State, w: Tid) {
    Pc(s, w).Flc? && Pc(s, w).f.FReread? ==> Bit(s, Pc(s, w).i) || Covered(s, Pc(s, w).o, Pc(s, w).i)
  }

  /** What thread_new would have to make sure of before it resets the bit of t. */
  ghost predicate ReuseGuard(s: State, t: Tid) {
    forall w: Tid :: w != 0 && Between(s, w, t) ==> Covered(s, Pc(s, w).o, t)
  }

  /** Taking the flc_lock of the thread object would do. */
  lemma FreeLockGuards(s: State, t: Tid)
    requires Inv(s) && t != 0 && Lock(s, t) == 0
    ensures ReuseGuard(s, t)
  {
    forall w: Tid | w != 0 ensures !Between(s, w, t) {
      assert ThreadOk(s, w);
    }
  }

  lemma InflateCovers(s: State, t: Tid, s': State, o: Obj, why: Why, st: InflateStage, nrec: Rec)
    requires Pc(s, t) == Inflate(o, why, st) && s' == InflateNext(s, t, o, why, st, nrec) && Lw(s, o).Thin?
    ensures Lw(s', o).Fat? || (Pc(s', t).Inflate? && Pc(s', t).o == o && s'.lw == s.lw)
  {
    match st
    case IGetRead => assert Pc(s', t) == Inflate(o, why, IGetTable);
    case IGetTable => assert Pc(s', t) == Inflate(o, why, ILock(if o in s.recs.table then s.recs.table[o] else nrec));
    case ILock(r) => assert Pc(s', t) == Inflate(o, why, IOwner(r));
    case IOwner(r) => assert Pc(s', t) == Inflate(o, why, IRead(r));
    case IRead(r) => assert Pc(s', t) == Inflate(o, why, ICount(r, Lw(s, o).count));
    case ICount(r, c) => assert Pc(s', t) == Inflate(o, why, ISet(r));
    case ISet(r) => assert Lw(s', o) == Fat(r);
  }

  /** Who is inflating a lock goes on until it is inflated. */
  ghost predicate InflatesOn(s: State, t: Tid, s': State) {
    Pc(s, t).Inflate? ==>
      Lw(s', Pc(s, t).o).Fat? || (Pc(s', t).Inflate? && Pc(s', t).o == Pc(s, t).o && s'.lw == s.lw)
  }

  lemma InflateGoesOn(s: State, t: Tid, s': State)
    requires OwnStep(s, t, s') && ThreadOk(s, t)
    ensures InflatesOn(s, t, s')
  {
    if Pc(s, t).Inflate? {
      var Inflate(o, why, st) := Pc(s, t);
      var nrec: Rec :| s' == InflateNext(s, t, o, why, st, nrec);
      InflateCovers(s, t, s', o, why, st, nrec);
    }
  }

  lemma CoveredStays(s: State, t: Tid, s': State, o: Obj, i: Tid)
    requires Covered(s, o, i) && t != 0 && InflatesOn(s, t, s')
    requires GuarThreads(s, t, s') && GuarWords(s, t, s')
    ensures Covered(s', o, i)
  {
    assert s'.lw == s.lw || WordChange(Lw(s, o), Lw(s', o), t);
    if Lw(s, o).Thin? && Lw(s, o).tid != t {
      assert Pc(s', Lw(s, o).tid) == Pc(s, Lw(s, o).tid);
    }
  }

  lemma SafeSelf(s: State, t: Tid, s': State)
    requires OwnStep(s, t, s')
    ensures Safe(s', t)
  {
    if Pc(s, t).Flc? {
      assert FlcStep(s, t, s');
    } else {
      Arrives(s, t, s');
    }
  }

  lemma SafeOther(s: State, t: Tid, s': State, w: Tid)
    requires Safe(s, w) && ThreadOk(s, w) && w != 0 && t != 0 && w != t && InflatesOn(s, t, s')
    requires GuarThreads(s, t, s') && GuarWords(s, t, s') && GuarFlc(s, t, s')
    ensures Safe(s', w)
  {
    assert Pc(s', w) == Pc(s, w);
    if Pc(s, w).Flc? && Pc(s, w).f.FReread? {
      assert s'.flc == s.flc || ListChange(s, t, s', Pc(s, w).i);
      if Covered(s, Pc(s, w).o, Pc(s, w).i) { CoveredStays(s, t, s', Pc(s, w).o, Pc(s, w).i); }
    }
  }

  ghost predicate AllSafe(s: State) { forall w: Tid :: w != 0 ==> Safe(s, w) }

  lemma SafeUnexposed(s: State)
    requires Inv(s) && AllSafe(s)
    ensures Unexposed(s)
  {
    forall w: Tid | w != 0 ensures !Exposed(s, w) { assert Safe(s, w); }
  }

  lemma StepSafe(s: State, t: Tid, s': State)
    requires Sound(s) && AllSafe(s) && Step(s, t, s') && (RecycleStep(s, t, s') ==> ReuseGuard(s, t))
    ensures AllSafe(s')
  {
    SafeUnexposed(s);
    assert Safe(s, t) && ThreadOk(s, t) && Marked(s, t) && Queueable(s, t);
    if OwnStep(s, t, s') {
      assert Ready(s, t);
      SoundSelf(s, t, s');
      StepKept(s, t, s');
      SafeSelf(s, t, s');
      InflateGoesOn(s, t, s');
    }
    forall w: Tid | w != 0 ensures Safe(s', w) {
      assert Safe(s, w) && ThreadOk(s, w);
      if OwnStep(s, t, s') {
        if w != t { SafeOther(s, t, s', w); }
      } else if RecycleStep(s, t, s') {
        SafeReuse(s, t, w);
      }
    }
  }

  lemma SafeReuse(s: State, t: Tid, w: Tid)
    requires Safe(s, w) && w != 0 && ReuseGuard(s, t)
    ensures Safe(Recycled(s, t), w)
  {
    assert Between(s, w, t) ==> Covered(s, Pc(s, w).o, t);
  }

  /** Every reuse of a thread object in the path meets the guard. */
  ghost predicate Guarded(run: seq<State>, actor: seq<Tid>)
    requires IsPath(run, actor)
  {
    forall j :: 0 <= j < |actor| ==> GuardedAt(run, actor, j)
  }

  ghost predicate GuardedAt(run: seq<State>, actor: seq<Tid>, j: int)
    requires IsPath(run, actor) && 0 <= j < |actor|
  {
    RecycleStep(run[j], actor[j], run[j + 1]) ==> ReuseGuard(run[j], actor[j])
  }

  lemma {:induction false} GuardedSafe(run: seq<State>, actor: seq<Tid>, k: nat)
    requires IsPath(run, actor) && Guarded(run, actor) && k < |run| && Sound(run[0]) && AllSafe(run[0])
    ensures Sound(run[k]) && AllSafe(run[k])
  {
    if k == 0 {
    } else {
      GuardedSafe(run, actor, k - 1);
      assert StepAt(run, actor, k - 1) && GuardedAt(run, actor, k - 1);
      SafeUnexposed(run[k - 1]);
      StepSound(run[k - 1], actor[k - 1], run[k]);
      StepSafe(run[k - 1], actor[k - 1], run[k]);
    }
  }

  /** With the guard, the assertion holds in every state of every run. */
  lemma GuardedNeverFails(run: seq<State>, actor: seq<Tid>, k: nat)
    requires IsRun(run, actor) && Guarded(run, actor) && k < |run|
    ensures Upheld(run, k)
  {
    InitInv();
    assert Sound(INIT) && AllSafe(INIT);
    forall j | 0 <= j <= k ensures AllMarked(run[j]) { GuardedSafe(run, actor, j); }
  }

  // ---------------------------------------------------------------- when a reuse is harmful

  /** The monitor of o is free, or its owner is idle and can leave it. */
  predicate Available(s: State, o: Obj) {
    Lw(s, o).Thin? && (Lw(s, o) == UNLOCKED || (Lw(s, o).tid != 0 && Pc(s, Lw(s, o).tid) == Idle))
  }

  /**
    Whoever is between its two looks when t is reused, at a monitor that is free or can be left,
    may find its assertion failing: the new thread takes the monitor first.
   */
  lemma ReuseFails(s: State, t: Tid, w: Tid) returns (s': State)
    requires Inv(s) && t != 0 && w != 0 && Finished(s, t) && Between(s, w, t) && Available(s, Pc(s, w).o)
    ensures Leads(Recycled(s, t), s') && !Marked(s', w)
  {
    var s0, o := Recycled(s, t), Pc(s, w).o;
    LeadsNowhere(s0);
    s' := s0;
    if Lw(s, o) != UNLOCKED {
      assert ThreadOk(s, t) && WordOk(s, o);
      FinishedAlone(s, t);
      assert !Pending(s, o, t);
      s' := Frees(s0, s0, Lw(s, o).tid, o);
    }
    s' := TakesIt(s0, s', t, w, o);
  }

  /** t takes the free monitor of o before w looks at it again. */
  lemma TakesIt(s: State, s1: State, t: Tid, w: Tid, o: Obj) returns (s': State)
    requires Leads(s, s1) && t != 0 && w != 0 && w != t && Pc(s1, t) == Idle && !Bit(s1, t)
    requires Between(s1, w, t) && Pc(s1, w).o == o && Lw(s1, o) == UNLOCKED
    ensures Leads(s, s') && !Marked(s', w)
  {
    s' := Acquires(s, s1, t, o);
    assert Pc(s', w) == Pc(s1, w) && Lw(s', o) == Thin(t, 0);
    s' := ExposureFails(s, s', w);
  }

  // ---------------------------------------------------------------- a run in which that happens

  /** Thread 2 has just put its mark on thread 1, which has left the monitor both were after. */
  lemma WindowReached() returns (s: State)
    ensures Leads(INIT, s) && Finished(s, 1) && Pc(s, 2) == Flc(7, 1, FReread(false)) && Lw(s, 7) == UNLOCKED
  {
    LeadsNowhere(INIT);
    s := Acquires(INIT, INIT, 1, 7);
    s := LooksUp(s);
    s := Leaves(s);
    var s1 := s;
    Contends(INIT, s, 2, false);
    s := FlcNext(s, 2, 7, 1, FSetBit(false), false);
    assert forall o: Obj :: Held(s, 1, o) == Held(s1, 1, o);
  }

  /** Thread 2 goes as far as reading the FLC bit of thread 1, which owns object 7. */
  lemma LooksUp(s1: State) returns (s: State)
    requires Leads(INIT, s1) && Pc(s1, 2) == Idle && Lw(s1, 7) == Thin(1, 0) && s1.flc == INIT.flc
    ensures Leads(INIT, s) && s.lw == s1.lw && s.hist == s1.hist
    ensures s.pc == s1.pc[2 := Flc(7, 1, FSetBit(false))] && !Bit(s, 1)
  {
    Calls(INIT, s1, 2, Enter(7, ERead));
    s := Goto(s1, 2, Enter(7, ERead));
    Enters(INIT, s, 2);
    s := EnterNext(s, 2, 7, ERead);
    Enters(INIT, s, 2);
    s := EnterNext(s, 2, 7, ECas(Thin(1, 0)));
    assert s == Goto(s1, 2, Flc(7, 1, FLookup));
    Contends(INIT, s, 2, true);
    s := FlcNext(s, 2, 7, 1, FLookup, true);
    Contends(INIT, s, 2, false);
    s := FlcNext(s, 2, 7, 1, FLock, false);
    Contends(INIT, s, 2, false);
    s := FlcNext(s, 2, 7, 1, FReadBit, false);
  }

  /** Thread 1 leaves the monitor of object 7 without having seen its FLC bit. */
  lemma Leaves(s1: State) returns (s: State)
    requires Leads(INIT, s1) && Pc(s1, 1) == Idle && Lw(s1, 7) == Thin(1, 0) && !Bit(s1, 1)
    requires Held(s1, 1, 7) == 1 && forall o: Obj :: o != 7 ==> Held(s1, 1, o) == 0
    ensures Leads(INIT, s) && Lw(s, 7) == UNLOCKED && Finished(s, 1) && Pc(s, 2) == Pc(s1, 2)
  {
    Calls(INIT, s1, 1, Exit(7, XRead));
    s := Goto(s1, 1, Exit(7, XRead));
    Exits(INIT, s, 1);
    s := ExitNext(s, 1, 7, XRead);
    Exits(INIT, s, 1);
    s := ExitNext(s, 1, 7, XStore);
    Exits(INIT, s, 1);
    s := ExitNext(s, 1, 7, XBit);
    forall o: Obj ensures Held(s, 1, o) == 0 {
      assert o != 7 ==> Held(s, 1, o) == Held(s1, 1, o);
    }
  }

  /** So the assertion fails in some run: thread 1 is reused with thread 2 between its two looks. */
  lemma ReuseRace() returns (s: State, s': State)
    ensures Leads(INIT, s) && Step(s, 1, Recycled(s, 1)) && Between(s, 2, 1)
    ensures Leads(Recycled(s, 1), s') && !Marked(s', 2)
  {
    s := WindowReached();
    assert RecycleStep(s, 1, Recycled(s, 1));
    LeadsNowhere(Recycled(s, 1));
    s' := TakesIt(Recycled(s, 1), Recycled(s, 1), 1, 2, 7);
  }
}
