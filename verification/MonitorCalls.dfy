/**
  Whole calls, from the call to the return, as the abstract monitor sees them: an enter locks
  once, an exit unlocks once, a wait gives the monitor up once and takes it back once, and a
  notify is one action on the wait set.
 */
module MonitorCalls {
  import opened MonitorModel
  import opened MonitorInv
  import opened MonitorFrames
  import opened MonitorSteps
  import opened MonitorTheorems
  import opened MonitorOutcomes
  import opened MonitorRefinement
  import W = MonitorWait

  // ---------------------------------------------------------------- calls

  /** t calls an operation, with the program counter p, at i and returns from it between j and j + 1. */
  ghost predicate WholeCall(run: seq<State>, actor: seq<Tid>, i: nat, j: nat, t: Tid, p: PC) {
    && IsRun(run, actor) && i <= j < |actor| && Upheld(run, j + 1) && t != 0
    && IsCall(p) && Pc(run[i], t) == p && W.Inside(run, i, j, t) && Pc(run[j + 1], t).Idle?
  }

  /** A step of any thread, as t inside an operation sees it. */
  lemma CallStepAt(run: seq<State>, actor: seq<Tid>, k: nat, t: Tid)
    requires IsRun(run, actor) && k < |actor| && Upheld(run, k + 1) && t != 0 && !Pc(run[k], t).Idle?
    ensures if actor[k] == t && OwnStep(run[k], t, run[k + 1]) then CallStep(run[k], t, run[k + 1])
            else Pc(run[k + 1], t) == Pc(run[k], t) && forall o: Obj :: Held(run[k + 1], t, o) == Held(run[k], t, o)
  {
    RunInv(run, actor, k);
    assert StepAt(run, actor, k) && AllMarked(run[k + 1]);
    var s, u, s' := run[k], actor[k], run[k + 1];
    if OwnStep(s, u, s') {
      if u == t {
        StepOutcome(s, t, s');
      } else {
        assert Ready(s, u);
        StepKept(s, u, s');
      }
    }
  }

  /** Until it returns, a call stays the same call, and counts nothing. */
  lemma {:induction false} CallGoesOn(run: seq<State>, actor: seq<Tid>, i: nat, k: nat, t: Tid)
    requires IsRun(run, actor) && i <= k < |run| && Upheld(run, k) && t != 0 && W.Inside(run, i, k, t)
    ensures Operation(Pc(run[k], t)) == Operation(Pc(run[i], t))
    ensures forall o: Obj :: Held(run[k], t, o) == Held(run[i], t, o)
    decreases k - i
  {
    if i == k {
    } else {
      CallGoesOn(run, actor, i, k - 1, t);
      CallStepAt(run, actor, k - 1, t);
    }
  }

  /** Only a step of t itself returns from its call. */
  lemma ReturnStep(run: seq<State>, actor: seq<Tid>, i: nat, j: nat, t: Tid, p: PC)
    requires WholeCall(run, actor, i, j, t, p)
    ensures actor[j] == t && OwnStep(run[j], t, run[j + 1]) && CallStep(run[j], t, run[j + 1])
    ensures Operation(Pc(run[j], t)) == Operation(p)
    ensures forall o: Obj :: Held(run[j], t, o) == Held(run[i], t, o)
  {
    CallGoesOn(run, actor, i, j, t);
    CallStepAt(run, actor, j, t);
  }

  ghost predicate Flat(ph: seq<int>, k: nat)
    requires k + 1 < |ph|
  {
    ph[k + 1] == ph[k]
  }

  ghost predicate Slow(ph: seq<int>, k: nat)
    requires k + 1 < |ph|
  {
    Flat(ph, k) || ph[k + 1] == ph[k] + 1
  }

  /** From i to j the sequence rises by steps of one. */
  ghost predicate Rises(ph: seq<int>, i: nat, j: nat) {
    i <= j < |ph| && forall k: nat :: i <= k < j ==> Slow(ph, k)
  }

  /** So it passes from v to v + 1 exactly once. */
  lemma {:induction false} Rise(ph: seq<int>, i: nat, j: nat, v: int) returns (b: nat)
    requires Rises(ph, i, j) && ph[i] <= v < ph[j]
    ensures i <= b < j && ph[b] == v && ph[b + 1] == v + 1
    ensures forall k :: i <= k <= b ==> ph[k] <= v
    ensures forall k :: b < k <= j ==> ph[k] > v
    decreases j - i
  {
    assert Slow(ph, j - 1);
    if ph[j - 1] <= v {
      b := j - 1;
      Below(ph, i, j - 1);
    } else {
      b := Rise(ph, i, j - 1, v);
    }
  }

  lemma {:induction false} Below(ph: seq<int>, i: nat, j: nat)
    requires Rises(ph, i, j)
    ensures forall k :: i <= k <= j ==> ph[k] <= ph[j]
    decreases j - i
  {
    if i == j {
    } else {
      assert Slow(ph, j - 1);
      Below(ph, i, j - 1);
    }
  }

  lemma OneRise(ph: seq<int>, i: nat, j: nat) returns (b: nat)
    requires Rises(ph, i, j) && ph[j] == ph[i] + 1
    ensures i <= b < j && ph[b + 1] == ph[b] + 1
    ensures forall k: nat :: i <= k < j && k != b ==> Flat(ph, k)
  {
    b := Rise(ph, i, j, ph[i]);
    forall k: nat | i <= k < j && k != b ensures Flat(ph, k) {
      assert Slow(ph, k);
      if k < b { Below(ph, i, k); Below(ph, k + 1, b); } else { Below(ph, b + 1, k); Below(ph, k + 1, j); }
    }
  }

  // ---------------------------------------------------------------- enter and exit

  /** The monitor of o changes by a step of t in an enter or exit of o exactly when the depth of t does. */
  lemma CountedStep(s: State, t: Tid, s': State, o: Obj)
    requires Inv(s) && Step(s, t, s') && Marked(s', t) && !Pc(s, t).Idle?
    requires Operation(Pc(s, t)).1 == o && (Operation(Pc(s, t)).0 == EnterOp || Operation(Pc(s, t)).0 == ExitOp)
    ensures var h, h' := HistoryDepth(s, t, o), HistoryDepth(s', t, o);
            || (h' == h && Abs(s', o) == Abs(s, o))
            || (Operation(Pc(s, t)).0 == EnterOp && h' == h + 1 && Locks(Abs(s, o), Abs(s', o), t))
            || (Operation(Pc(s, t)).0 == ExitOp && h' == h - 1 && Unlocks(Abs(s, o), Abs(s', o), t))
  {
    StepRefinesMonitor(s, t, s', o);
    if OwnStep(s, t, s') { OwnerStep(s, t, s', o); }
  }

  predicate Counts(m: Monitor, m': Monitor, t: Tid, d: int) { if d == 1 then Locks(m, m', t) else Unlocks(m, m', t) }

  /** The step at k counts d for t and acts on the monitor of o, or is not by t or leaves the monitor alone. */
  ghost predicate CountsAt(run: seq<State>, actor: seq<Tid>, k: nat, t: Tid, o: Obj, d: int)
    requires k < |actor| && |run| == |actor| + 1
  {
    var s, s' := run[k], run[k + 1];
    || (HistoryDepth(s', t, o) == HistoryDepth(s, t, o) && (actor[k] == t ==> Abs(s', o) == Abs(s, o)))
    || (&& HistoryDepth(s', t, o) == HistoryDepth(s, t, o) + d && actor[k] == t
        && Counts(Abs(s, o), Abs(s', o), t, d))
  }

  lemma CountedStepAt(run: seq<State>, actor: seq<Tid>, k: nat, t: Tid, o: Obj, d: int)
    requires IsRun(run, actor) && k < |actor| && Upheld(run, k + 1) && t != 0 && !Pc(run[k], t).Idle?
    requires Operation(Pc(run[k], t)) == (if d == 1 then EnterOp else ExitOp, o) && (d == 1 || d == -1)
    ensures CountsAt(run, actor, k, t, o, d)
  {
    RunInv(run, actor, k);
    assert StepAt(run, actor, k) && AllMarked(run[k + 1]);
    if actor[k] == t {
      CountedStep(run[k], t, run[k + 1], o);
    } else {
      CallStepAt(run, actor, k, t);
    }
  }

  lemma CallCounts(run: seq<State>, actor: seq<Tid>, i: nat, j: nat, t: Tid, p: PC, o: Obj, d: int) returns (b: nat)
    requires WholeCall(run, actor, i, j, t, p) && Res(run[j + 1], t) != IllegalMonitorState
    requires Operation(p) == (if d == 1 then EnterOp else ExitOp, o) && (d == 1 || d == -1)
    ensures i <= b <= j && actor[b] == t && Res(run[j + 1], t) == Ok
    ensures Counts(Abs(run[b], o), Abs(run[b + 1], o), t, d)
    ensures forall k :: i <= k <= j && actor[k] == t && k != b ==> Abs(run[k + 1], o) == Abs(run[k], o)
  {
    CallTotal(run, actor, i, j, t, p, o, d);
    CallSteps(run, actor, i, j, t, p, o, d);
    b := OneCounts(run, actor, i, j, t, o, d);
  }

  lemma CallSteps(run: seq<State>, actor: seq<Tid>, i: nat, j: nat, t: Tid, p: PC, o: Obj, d: int)
    requires WholeCall(run, actor, i, j, t, p)
    requires Operation(p) == (if d == 1 then EnterOp else ExitOp, o) && (d == 1 || d == -1)
    ensures forall k :: i <= k <= j ==> CountsAt(run, actor, k, t, o, d)
  {
    forall k | i <= k <= j ensures CountsAt(run, actor, k, t, o, d) {
      CallGoesOn(run, actor, i, k, t);
      CountedStepAt(run, actor, k, t, o, d);
    }
  }

  /** A successful enter or exit counts once in all. */
  lemma CallTotal(run: seq<State>, actor: seq<Tid>, i: nat, j: nat, t: Tid, p: PC, o: Obj, d: int)
    requires WholeCall(run, actor, i, j, t, p) && Res(run[j + 1], t) != IllegalMonitorState
    requires Operation(p) == (if d == 1 then EnterOp else ExitOp, o) && (d == 1 || d == -1)
    ensures HistoryDepth(run[j + 1], t, o) == HistoryDepth(run[i], t, o) + d && Res(run[j + 1], t) == Ok
  {
    ReturnStep(run, actor, i, j, t, p);
  }

  /** If the steps from i to j count d in all, one of them does, and the others of t do nothing. */
  lemma OneCounts(run: seq<State>, actor: seq<Tid>, i: nat, j: nat, t: Tid, o: Obj, d: int) returns (b: nat)
    requires |run| == |actor| + 1 && i <= j < |actor| && (d == 1 || d == -1)
    requires forall k :: i <= k <= j ==> CountsAt(run, actor, k, t, o, d)
    requires HistoryDepth(run[j + 1], t, o) == HistoryDepth(run[i], t, o) + d
    ensures i <= b <= j && actor[b] == t
    ensures Counts(Abs(run[b], o), Abs(run[b + 1], o), t, d)
    ensures forall k :: i <= k <= j && actor[k] == t && k != b ==> Abs(run[k + 1], o) == Abs(run[k], o)
  {
    var ph := Depths(run, t, o, d);
    forall k: nat | i <= k <= j ensures Slow(ph, k) { assert CountsAt(run, actor, k, t, o, d); }
    b := OneRise(ph, i, j + 1);
    assert CountsAt(run, actor, b, t, o, d);
    forall k: nat | i <= k <= j && actor[k] == t && k != b ensures Abs(run[k + 1], o) == Abs(run[k], o) {
      assert Flat(ph, k);
      CountsNothing(run, actor, k, t, o, d);
    }
  }

  lemma CountsNothing(run: seq<State>, actor: seq<Tid>, k: nat, t: Tid, o: Obj, d: int)
    requires k < |actor| && |run| == |actor| + 1 && CountsAt(run, actor, k, t, o, d) && d != 0 && actor[k] == t
    requires HistoryDepth(run[k + 1], t, o) == HistoryDepth(run[k], t, o)
    ensures Abs(run[k + 1], o) == Abs(run[k], o)
  {
  }

  function SignedDepth(s: State, t: Tid, o: Obj, d: int): int {
    if d == 1 then HistoryDepth(s, t, o) else -HistoryDepth(s, t, o)
  }

  /** The depth of t in o along a run, or its negative. */
  function Depths(run: seq<State>, t: Tid, o: Obj, d: int): (ph: seq<int>)
    ensures |ph| == |run|
    ensures forall k :: 0 <= k < |run| ==> ph[k] == SignedDepth(run[k], t, o, d)
  {
    seq(|run|, k requires 0 <= k < |run| => SignedDepth(run[k], t, o, d))
  }

  /** An enter performs exactly one action on the monitor: it locks it, at b. */
  lemma EnterLocksOnce(run: seq<State>, actor: seq<Tid>, i: nat, j: nat, t: Tid, o: Obj) returns (b: nat)
    requires WholeCall(run, actor, i, j, t, Enter(o, ERead))
    ensures i <= b <= j && actor[b] == t && Locks(Abs(run[b], o), Abs(run[b + 1], o), t)
    ensures forall k :: i <= k <= j && actor[k] == t && k != b ==> Abs(run[k + 1], o) == Abs(run[k], o)
    ensures Res(run[j + 1], t) == Ok
  {
    ReturnStep(run, actor, i, j, t, Enter(o, ERead));
    b := CallCounts(run, actor, i, j, t, Enter(o, ERead), o, 1);
  }

  /** A successful exit performs exactly one action on the monitor: it unlocks it, at b. */
  lemma ExitUnlocksOnce(run: seq<State>, actor: seq<Tid>, i: nat, j: nat, t: Tid, o: Obj) returns (b: nat)
    requires WholeCall(run, actor, i, j, t, Exit(o, XRead)) && Res(run[j + 1], t) != IllegalMonitorState
    ensures i <= b <= j && actor[b] == t && Unlocks(Abs(run[b], o), Abs(run[b + 1], o), t)
    ensures forall k :: i <= k <= j && actor[k] == t && k != b ==> Abs(run[k + 1], o) == Abs(run[k], o)
    ensures Res(run[j + 1], t) == Ok
  {
    b := CallCounts(run, actor, i, j, t, Exit(o, XRead), o, -1);
  }

  // ---------------------------------------------------------------- wait

  /** How far a wait has come: it still has the monitor, has given it up, or has taken it back. */
  function WaitPhase(p: PC): int {
    match p
    case Park(_, _, _, q) => if q.PClear? || q.PUnlock? then 0 else if q.PSleep? || q.PLock? then 1 else 2
    case Wait(_, _) => if Reporting(p) then 2 else 0
    case _ => 0
  }

  /** A wait goes through its phases in order, and returns with success only from the last. */
  ghost predicate WaitMove(p: PC, p': PC, res: Outcome) {
    if p'.Idle? then
      WaitPhase(p) == (if res == IllegalMonitorState then 0 else 2)
    else
      WaitPhase(p') == WaitPhase(p) || WaitPhase(p') == WaitPhase(p) + 1
  }

  lemma InflateMove(s: State, t: Tid, s': State)
    requires InflateStep(s, t, s')
    ensures WaitPhase(Pc(s, t)) == 0 && WaitPhase(Pc(s', t)) == 0 && !Pc(s', t).Idle?
  {
    match Pc(s, t).st
    case ISet(r) => assert Pc(s', t) == AfterInflate(Pc(s, t).o, r, Pc(s, t).why);
    case IRead(r) => assert Pc(s', t).Inflate? || Pc(s', t) == AfterInflate(Pc(s, t).o, r, Pc(s, t).why);
    case _ => assert Pc(s', t).Inflate?;
  }

  lemma NotifyMove(s: State, t: Tid, s': State)
    requires NotifyFlcStep(s, t, s') && Pc(s, t).ret.RWait?
    ensures WaitPhase(Pc(s, t)) == 0 && WaitPhase(Pc(s', t)) == 0 && !Pc(s', t).Idle?
  {
    match Pc(s, t).n
    case NUnlock => assert Pc(s', t) == Wait(Pc(s, t).o, WAdd(Pc(s, t).ret.rec));
    case _ => assert Pc(s', t).Notify? || Pc(s', t).Inflate?;
  }

  lemma WaitStageMove(s: State, t: Tid, s': State, o: Obj, w: WaitStage)
    requires Pc(s, t) == Wait(o, w) && s' == WaitNext(s, t, o, w)
    ensures WaitMove(Pc(s, t), Pc(s', t), Res(s', t)) && ReportMove(Pc(s, t), Pc(s', t), Res(s', t))
  {
    if Reporting(Pc(s, t)) { ReportStageMove(s, t, s', o, w); return; }
    match w
    case WRead => assert Pc(s', t) == Idle || Pc(s', t).Inflate? || Pc(s', t) == Wait(o, WOwner(Lw(s, o).rec));
    case WOwner(r) => assert Pc(s', t) == if Owner(s, r) != t then Idle else Wait(o, WAdd(r));
    case WAdd(r) => assert Pc(s', t) == Wait(o, WSave(r));
    case WSave(r) => assert Pc(s', t) == Park(o, r, Count(s, r), PClear);
  }

  lemma ReportStageMove(s: State, t: Tid, s': State, o: Obj, w: WaitStage)
    requires Pc(s, t) == Wait(o, w) && Reporting(Pc(s, t)) && s' == WaitNext(s, t, o, w)
    ensures WaitMove(Pc(s, t), Pc(s', t), Res(s', t)) && ReportMove(Pc(s, t), Pc(s', t), Res(s', t))
  {
    match w
    case WSignaled(r) => assert Pc(s', t) == Wait(o, if Signaled(s, t) then WReset(r, false) else WInterrupted(r));
    case WInterrupted(r) => assert Pc(s', t) == Wait(o, WClear(r, IsInterrupted(s, t)));
    case WClear(r, was) => assert Pc(s', t) == Wait(o, WReset(r, was));
    case WReset(_, was) => assert Pc(s', t) == Idle && Res(s', t) == if was then Interrupted else Ok;
  }

  lemma ParkStageMove(s: State, t: Tid, s': State, o: Obj, r: Rec, saved: int, q: ParkStage)
    requires Pc(s, t) == Park(o, r, saved, q) && s' == ParkNext(s, t, o, r, saved, q)
    ensures !Pc(s', t).Idle?
    ensures WaitPhase(Pc(s', t)) == WaitPhase(Pc(s, t)) || WaitPhase(Pc(s', t)) == WaitPhase(Pc(s, t)) + 1
  {
    match q
    case PClear => assert Pc(s', t) == Park(o, r, saved, PUnlock);
    case PUnlock => assert Pc(s', t) == Park(o, r, saved, PSleep);
    case PSleep => assert Pc(s', t) == Park(o, r, saved, PLock);
    case PLock => assert Pc(s', t) == Park(o, r, saved, POwner);
    case POwner => assert Pc(s', t) == Park(o, r, saved, PRemove);
    case PRemove => assert Pc(s', t) == Park(o, r, saved, PRestore);
    case PRestore => assert Pc(s', t) == Wait(o, WSignaled(r));
  }

  lemma PhaseMove(s: State, t: Tid, s': State)
    requires OwnStep(s, t, s') && !Pc(s, t).Idle? && Operation(Pc(s, t)).0 == WaitOp
    ensures WaitMove(Pc(s, t), Pc(s', t), Res(s', t))
  {
    if InflateStep(s, t, s') { InflateMove(s, t, s'); }
    else if NotifyFlcStep(s, t, s') { NotifyMove(s, t, s'); }
    else if WaitStep(s, t, s') { WaitStageMove(s, t, s', Pc(s, t).o, Pc(s, t).w); }
    else { ParkStageMove(s, t, s', Pc(s, t).o, Pc(s, t).r, Pc(s, t).saved, Pc(s, t).q); }
  }

  /** A step of t in a wait on o: the monitor changes exactly when the phase does. */
  ghost predicate PhaseStep(s: State, t: Tid, s': State, o: Obj) {
    var a, a' := WaitPhase(Pc(s, t)), WaitPhase(Pc(s', t));
    if Pc(s', t).Idle? || a' == a then Abs(s', o) == Abs(s, o)
    else if a == 0 then BeginsWait(Abs(s, o), Abs(s', o), t)
    else Resumes(Abs(s, o), Abs(s', o), t)
  }

  lemma PhaseRefines(s: State, t: Tid, s': State, o: Obj)
    requires Inv(s) && Step(s, t, s') && Marked(s', t) && !Pc(s, t).Idle? && Operation(Pc(s, t)) == (WaitOp, o)
    ensures WaitMove(Pc(s, t), Pc(s', t), Res(s', t)) || Pc(s', t) == Pc(s, t)
    ensures PhaseStep(s, t, s', o)
  {
    StepRefinesMonitor(s, t, s', o);
    if OwnStep(s, t, s') {
      PhaseMove(s, t, s');
      StepOutcome(s, t, s');
    }
    AwayPhase(s, t, o);
    if !Pc(s', t).Idle? { AwayPhase(s', t, o); }
  }

  lemma AwayPhase(s: State, t: Tid, o: Obj)
    requires t != 0 && !Pc(s, t).Idle? && Operation(Pc(s, t)) == (WaitOp, o)
    ensures t in Abs(s, o).parked <==> WaitPhase(Pc(s, t)) == 1
  {
  }

  /** The step at k, in a wait of t on o. */
  ghost predicate PhaseAt(run: seq<State>, actor: seq<Tid>, k: nat, t: Tid, o: Obj)
    requires k < |actor| && |run| == |actor| + 1
  {
    && (Pc(run[k + 1], t) == Pc(run[k], t) ||
        (actor[k] == t && WaitMove(Pc(run[k], t), Pc(run[k + 1], t), Res(run[k + 1], t))))
    && (actor[k] == t ==> PhaseStep(run[k], t, run[k + 1], o))
  }

  lemma PhaseStepAt(run: seq<State>, actor: seq<Tid>, k: nat, t: Tid, o: Obj)
    requires IsRun(run, actor) && k < |actor| && Upheld(run, k + 1) && t != 0
    requires !Pc(run[k], t).Idle? && Operation(Pc(run[k], t)) == (WaitOp, o)
    ensures PhaseAt(run, actor, k, t, o)
  {
    RunInv(run, actor, k);
    assert StepAt(run, actor, k) && AllMarked(run[k + 1]);
    if actor[k] == t {
      PhaseRefines(run[k], t, run[k + 1], o);
    } else {
      CallStepAt(run, actor, k, t);
    }
  }

  /** While t is away, nobody touches the depth it gave up. */
  lemma {:induction false} ParkedStays(run: seq<State>, actor: seq<Tid>, b: nat, c: nat, t: Tid, o: Obj)
    requires IsRun(run, actor) && b <= c < |run| && Upheld(run, c) && t != 0
    requires forall k :: b <= k <= c ==>
               !Pc(run[k], t).Idle? && Operation(Pc(run[k], t)) == (WaitOp, o) && WaitPhase(Pc(run[k], t)) == 1
    ensures t in Abs(run[b], o).parked && t in Abs(run[c], o).parked
    ensures Abs(run[c], o).parked[t] == Abs(run[b], o).parked[t]
    decreases c - b
  {
    AwayPhase(run[b], t, o);
    AwayPhase(run[c], t, o);
    if b == c {
    } else {
      ParkedStays(run, actor, b, c - 1, t, o);
      PhaseStepAt(run, actor, c - 1, t, o);
    }
  }

  /**
    A wait that is not refused acts on the monitor exactly twice: at b it gives the monitor up
    and joins the wait set, and later, at c, it takes the monitor back as deeply as it had it.
   */
  lemma WaitWaitsOnce(run: seq<State>, actor: seq<Tid>, i: nat, j: nat, t: Tid, o: Obj) returns (b: nat, c: nat)
    requires WholeCall(run, actor, i, j, t, Wait(o, WRead)) && Res(run[j + 1], t) != IllegalMonitorState
    ensures i <= b < c < j && actor[b] == t && actor[c] == t
    ensures BeginsWait(Abs(run[b], o), Abs(run[b + 1], o), t) && Resumes(Abs(run[c], o), Abs(run[c + 1], o), t)
    ensures Abs(run[c + 1], o).depth == Abs(run[b], o).depth
    ensures forall k :: i <= k <= j && actor[k] == t && k != b && k != c ==> Abs(run[k + 1], o) == Abs(run[k], o)
  {
    WaitPhases(run, actor, i, j, t, o);
    b, c := TwoRises(run, actor, i, j, t, o);
    ParkedStays(run, actor, b + 1, c, t, o);
    PhasesActs(run, actor, i, j, b, c, t, o);
  }

  ghost predicate SamePhase(run: seq<State>, k: nat, t: Tid)
    requires k + 1 < |run|
  {
    WaitPhase(Pc(run[k + 1], t)) == WaitPhase(Pc(run[k], t))
  }

  lemma WaitPhases(run: seq<State>, actor: seq<Tid>, i: nat, j: nat, t: Tid, o: Obj)
    requires WholeCall(run, actor, i, j, t, Wait(o, WRead))
    ensures forall k :: i <= k <= j ==> Operation(Pc(run[k], t)) == (WaitOp, o)
    ensures forall k :: i <= k <= j ==> PhaseAt(run, actor, k, t, o)
  {
    forall k | i <= k <= j ensures Operation(Pc(run[k], t)) == (WaitOp, o) && PhaseAt(run, actor, k, t, o) {
      CallGoesOn(run, actor, i, k, t);
      PhaseStepAt(run, actor, k, t, o);
    }
  }

  /** The two changes of phase are the two actions. */
  lemma PhasesActs(run: seq<State>, actor: seq<Tid>, i: nat, j: nat, b: nat, c: nat, t: Tid, o: Obj)
    requires |run| == |actor| + 1 && i <= b < c < j < |actor| && W.Inside(run, i, j, t) && Pc(run[j + 1], t).Idle?
    requires forall k :: i <= k <= j ==> PhaseAt(run, actor, k, t, o)
    requires WaitPhase(Pc(run[b], t)) == 0 && WaitPhase(Pc(run[b + 1], t)) == 1
    requires WaitPhase(Pc(run[c], t)) == 1 && WaitPhase(Pc(run[c + 1], t)) == 2
    requires forall k: nat :: i <= k < j && k != b && k != c ==> SamePhase(run, k, t)
    ensures actor[b] == t && BeginsWait(Abs(run[b], o), Abs(run[b + 1], o), t)
    ensures actor[c] == t && Resumes(Abs(run[c], o), Abs(run[c + 1], o), t)
    ensures forall k :: i <= k <= j && actor[k] == t && k != b && k != c ==> Abs(run[k + 1], o) == Abs(run[k], o)
  {
    assert PhaseAt(run, actor, b, t, o) && PhaseAt(run, actor, c, t, o);
    forall k: nat | i <= k <= j && actor[k] == t && k != b && k != c ensures Abs(run[k + 1], o) == Abs(run[k], o) {
      assert PhaseAt(run, actor, k, t, o);
      assert k < j ==> SamePhase(run, k, t);
    }
  }

  lemma TwoRises(run: seq<State>, actor: seq<Tid>, i: nat, j: nat, t: Tid, o: Obj) returns (b: nat, c: nat)
    requires |run| == |actor| + 1 && i <= j < |actor| && W.Inside(run, i, j, t)
    requires forall k :: i <= k <= j ==> PhaseAt(run, actor, k, t, o)
    requires WaitPhase(Pc(run[i], t)) == 0 && Pc(run[j + 1], t).Idle? && Res(run[j + 1], t) != IllegalMonitorState
    ensures i <= b < c < j
    ensures WaitPhase(Pc(run[b], t)) == 0 && WaitPhase(Pc(run[c], t)) == 1 && WaitPhase(Pc(run[c + 1], t)) == 2
    ensures forall k :: b < k <= c ==> WaitPhase(Pc(run[k], t)) == 1
    ensures forall k: nat :: i <= k < j && k != b && k != c ==> SamePhase(run, k, t)
  {
    var ph := seq(|run|, k requires 0 <= k < |run| => WaitPhase(Pc(run[k], t)));
    forall k: nat | i <= k < j ensures Slow(ph, k) { assert PhaseAt(run, actor, k, t, o); }
    assert PhaseAt(run, actor, j, t, o);
    b := Rise(ph, i, j, 0);
    c := Rise(ph, i, j, 1);
    forall k: nat | i <= k < j && k != b && k != c ensures SamePhase(run, k, t) {
      PhaseKept(ph, i, j, b, c, k);
    }
    forall k | b < k <= c ensures WaitPhase(Pc(run[k], t)) == 1 { assert ph[k] == 1; }
  }

  lemma PhaseKept(ph: seq<int>, i: nat, j: nat, b: nat, c: nat, k: nat)
    requires i <= b < c < j < |ph| && i <= k < j && k != b && k != c
    requires ph[i] == 0 && ph[j] == 2 && Rises(ph, i, j)
    requires (forall m :: i <= m <= b ==> ph[m] <= 0) && (forall m :: b < m <= j ==> ph[m] > 0)
    requires (forall m :: i <= m <= c ==> ph[m] <= 1) && (forall m :: c < m <= j ==> ph[m] > 1)
    ensures ph[k + 1] == ph[k]
  {
    assert Slow(ph, k);
    Below(ph, k + 1, j);
    Below(ph, i, k);
  }

  // ---------------------------------------------------------------- notify

  lemma SignalGoesOn(s: State, t: Tid, s': State, o: Obj, one: bool)
    requires SignalStep(s, t, s') && Pc(s, t).o == o && Pc(s, t).one == one && !Pc(s', t).Idle?
    ensures Pc(s', t).Signal? && Pc(s', t).o == o && Pc(s', t).one == one
    ensures one ==> !SignalsNow(s, t)
  {
  }

  /** Nobody waits on an object whose lock is thin. */
  lemma ThinNobodyWaits(s: State, o: Obj)
    requires Inv(s) && Lw(s, o).Thin?
    ensures Waiting(s, o) == {}
  {
    forall w | w in Waiting(s, o) ensures false { AwayIsFat(s, w, o); }
  }

  lemma AwayIsFat(s: State, w: Tid, o: Obj)
    requires Inv(s) && w != 0 && Away(Pc(s, w), o)
    ensures Lw(s, o).Fat?
  {
    assert ThreadOk(s, w);
  }

  /** A notify returns with success only to the owner, having taken a thread out of the wait set or with none in it. */
  lemma SignalReturns(s: State, t: Tid, s': State, o: Obj, one: bool)
    requires Inv(s) && SignalStep(s, t, s') && t != 0 && Marked(s', t) && Pc(s, t).o == o && Pc(s, t).one == one
    requires Pc(s', t).Idle? && Res(s', t) == Ok
    ensures if Abs(s, o).waiting == {} then Abs(s', o) == Abs(s, o) else one && Notifies(Abs(s, o), Abs(s', o), t)
  {
    SignalFinds(s, t, s', o, one);
    SignalRefines(s, t, s', o);
  }

  lemma SignalFinds(s: State, t: Tid, s': State, o: Obj, one: bool)
    requires Inv(s) && SignalStep(s, t, s') && t != 0 && Marked(s', t) && Pc(s, t).o == o && Pc(s, t).one == one
    requires Pc(s', t).Idle? && Res(s', t) == Ok
    ensures Abs(s, o).waiting == {} || (one && Notifies(Abs(s, o), Abs(s', o), t))
  {
    match Pc(s, t).g
    case SLoop(_, _, _) => NotifyReturns(s, t, s');
    case SRead => ReturnsAtOnce(s, t, s', o, one);
    case SOwner(r) => OwnerRefuses(s, t, s', o, one, r);
  }

  lemma ReturnsAtOnce(s: State, t: Tid, s': State, o: Obj, one: bool)
    requires Inv(s) && s' == AfterSignalRead(s, t, o, one) && Pc(s', t).Idle?
    ensures Waiting(s, o) == {}
  {
    assert Lw(s, o).Thin?;
    ThinNobodyWaits(s, o);
  }

  lemma OwnerRefuses(s: State, t: Tid, s': State, o: Obj, one: bool, r: Rec)
    requires s' == SignalNext(s, t, o, one, SOwner(r)) && Pc(s', t).Idle?
    ensures Res(s', t) == IllegalMonitorState
  {
  }

  /** While t owns the monitor of o, a step of another thread leaves it alone. */
  lemma OthersKeepOff(s: State, u: Tid, s': State, t: Tid, o: Obj)
    requires Inv(s) && Step(s, u, s') && Marked(s', u) && u != t && t != 0 && MonitorOwner(s, o) == t
    ensures Abs(s', o) == Abs(s, o)
  {
    StepRefinesMonitor(s, u, s', o);
  }

  /** t is inside a notify on o, which it owns. */
  ghost predicate Notifying(s: State, t: Tid, o: Obj, one: bool) {
    Pc(s, t).Signal? && Pc(s, t).o == o && Pc(s, t).one == one && Held(s, t, o) > 0
  }

  lemma NotifyingOwns(s: State, t: Tid, o: Obj, one: bool)
    requires Inv(s) && t != 0 && Notifying(s, t, o, one)
    ensures MonitorOwner(s, o) == t
  {
    assert BalanceOk(s, t, o);
    DepthOwner(s, t, o);
  }

  /** Before it returns, notify leaves the monitor alone, and notify-all touches nothing but its wait set. */
  lemma NotifyStepAt(run: seq<State>, actor: seq<Tid>, k: nat, t: Tid, o: Obj, one: bool)
    requires IsRun(run, actor) && k < |actor| && Upheld(run, k + 1) && t != 0
    requires Notifying(run[k], t, o, one) && !Pc(run[k + 1], t).Idle?
    ensures Notifying(run[k + 1], t, o, one)
    ensures Abs(run[k + 1], o).(waiting := {}) == Abs(run[k], o).(waiting := {})
    ensures one || actor[k] != t ==> Abs(run[k + 1], o) == Abs(run[k], o)
  {
    RunInv(run, actor, k);
    assert StepAt(run, actor, k) && AllMarked(run[k + 1]);
    CallStepAt(run, actor, k, t);
    NotifyingOwns(run[k], t, o, one);
    if actor[k] != t {
      OthersKeepOff(run[k], actor[k], run[k + 1], t, o);
    } else {
      NotifyOwnStep(run[k], t, run[k + 1], o, one);
    }
  }

  lemma NotifyOwnStep(s: State, t: Tid, s': State, o: Obj, one: bool)
    requires Inv(s) && Step(s, t, s') && Marked(s', t) && !Pc(s', t).Idle?
    requires Pc(s, t).Signal? && Pc(s, t).o == o && Pc(s, t).one == one
    ensures Pc(s', t).Signal? && Pc(s', t).o == o && Pc(s', t).one == one
    ensures Abs(s', o).(waiting := {}) == Abs(s, o).(waiting := {})
    ensures one ==> Abs(s', o) == Abs(s, o)
  {
    if OwnStep(s, t, s') {
      assert SignalStep(s, t, s');
      SignalGoesOn(s, t, s', o, one);
      SignalRefines(s, t, s', o);
      if one {
        OwnerStep(s, t, s', o);
        SignalsNobody(s, t, s');
        WaitSetSame(s, t, s', o);
      }
    } else {
      StepRefinesMonitor(s, t, s', o);
      assert ThreadOk(s, t);
      AsideRefines(s, t, s', o);
    }
  }

  lemma {:induction false} NotifyRun(run: seq<State>, actor: seq<Tid>, i: nat, k: nat, t: Tid, o: Obj, one: bool)
    requires IsRun(run, actor) && i <= k < |run| && Upheld(run, k) && t != 0 && W.Inside(run, i, k, t)
    requires Notifying(run[i], t, o, one)
    ensures Notifying(run[k], t, o, one)
    ensures Abs(run[k], o).(waiting := {}) == Abs(run[i], o).(waiting := {})
    ensures one ==> Abs(run[k], o) == Abs(run[i], o)
    decreases k - i
  {
    if i == k {
    } else {
      NotifyRun(run, actor, i, k - 1, t, o, one);
      NotifyStepAt(run, actor, k - 1, t, o, one);
    }
  }

  /**
    A successful notify is one action on the monitor, from the call to the return: it takes one
    thread out of the wait set unless that is empty.  A successful notify-all empties the wait set.
   */
  lemma NotifyNotifiesOnce(run: seq<State>, actor: seq<Tid>, i: nat, j: nat, t: Tid, o: Obj, one: bool)
    requires WholeCall(run, actor, i, j, t, Signal(o, one, SRead)) && Res(run[j + 1], t) != IllegalMonitorState
    ensures Abs(run[i], o).owner == t && Res(run[j + 1], t) == Ok
    ensures var m, m' := Abs(run[i], o), Abs(run[j + 1], o);
            if one && m.waiting != {} then Notifies(m, m', t) else m' == m.(waiting := {})
  {
    ReturnStep(run, actor, i, j, t, Signal(o, one, SRead));
    RunInv(run, actor, i);
    RunInv(run, actor, j);
    NotifyingOwns(run[i], t, o, one);
    NotifyRun(run, actor, i, j, t, o, one);
    assert SignalStep(run[j], t, run[j + 1]);
    assert AllMarked(run[j + 1]);
    SignalReturns(run[j], t, run[j + 1], o, one);
  }

  // ---------------------------------------------------------------- whom a notify reaches, from the call on

  /** The waiters of r and their flags are the same in s and s'. */
  ghost predicate SameWaiters(s: State, s': State, r: Rec) {
    Waiters(s', r) == Waiters(s, r) && Flags(s', Waiters(s, r)) == Flags(s, Waiters(s, r))
  }

  /** While t is inside the mutex of r, other threads leave its waiters and their flags alone. */
  lemma OthersQuiet(s: State, u: Tid, s': State, t: Tid, o: Obj, r: Rec)
    requires Inv(s) && OwnStep(s, u, s') && Marked(s', u) && u != 0 && t != 0 && u != t
    requires Lw(s, o) == Fat(r) && Mutex(s, r) == t
    ensures Lw(s', o) == Fat(r) && Mutex(s', r) == t && SameWaiters(s, s', r)
  {
    assert Ready(s, u);
    StepKept(s, u, s');
    assert WaitOk(s, r);
    GuardedWaiters(s, u, s', t, o, r);
  }

  lemma GuardedWaiters(s: State, u: Tid, s': State, t: Tid, o: Obj, r: Rec)
    requires GuarWords(s, u, s') && GuarRecords(s, u, s') && GuarWaiting(s, u, s') && WaitOk(s, r)
    requires t != 0 && u != 0 && u != t && Lw(s, o) == Fat(r) && Mutex(s, r) == t
    ensures Lw(s', o) == Fat(r) && Mutex(s', r) == t && SameWaiters(s, s', r)
  {
    assert s'.lw == s.lw || WordChange(Lw(s, o), Lw(s', o), u);
    assert s'.recs == s.recs || RecordChange(s, u, s', r);
    var ws := Waiters(s, r);
    forall k | 0 <= k < |ws| ensures Signaled(s', ws[k]) == Signaled(s, ws[k]) {
      assert ws[k] in ws;
      assert s'.signaled == s.signaled || SignalChange(s, u, s', ws[k]);
    }
  }

  /** So does t itself until it walks them. */
  lemma BeforeWalk(s: State, t: Tid, s': State, o: Obj, r: Rec)
    requires SignalStep(s, t, s') && !Pc(s, t).g.SLoop? && Lw(s, o) == Fat(r) && Mutex(s, r) == t
    ensures Lw(s', o) == Fat(r) && Mutex(s', r) == t && SameWaiters(s, s', r)
  {
    assert s'.lw == s.lw && s'.recs == s.recs && s'.signaled == s.signaled;
  }

  lemma QuietAt(run: seq<State>, actor: seq<Tid>, k: nat, t: Tid, o: Obj, r: Rec)
    requires IsRun(run, actor) && k < |actor| && Upheld(run, k + 1) && t != 0
    requires Pc(run[k], t).Signal? && !Pc(run[k], t).g.SLoop? && Lw(run[k], o) == Fat(r) && Mutex(run[k], r) == t
    ensures Lw(run[k + 1], o) == Fat(r) && Mutex(run[k + 1], r) == t && SameWaiters(run[k], run[k + 1], r)
  {
    RunInv(run, actor, k);
    assert StepAt(run, actor, k) && AllMarked(run[k + 1]);
    var s, u, s' := run[k], actor[k], run[k + 1];
    if OwnStep(s, u, s') {
      if u == t { BeforeWalk(s, t, s', o, r); } else { OthersQuiet(s, u, s', t, o, r); }
    } else {
      assert ThreadOk(s, u);
      AsideQuiet(s, u, s', r);
    }
  }

  lemma AsideQuiet(s: State, u: Tid, s': State, r: Rec)
    requires (InterruptStep(s, u, s') || RecycleStep(s, u, s')) && ThreadOk(s, u)
    ensures s'.lw == s.lw && s'.recs == s.recs && SameWaiters(s, s', r)
  {
    assert forall w: Tid :: Signaled(s', w) == Signaled(s, w);
  }

  lemma {:induction false} QuietRun(run: seq<State>, actor: seq<Tid>, i: nat, k: nat, t: Tid, o: Obj, r: Rec)
    requires IsRun(run, actor) && i <= k < |run| && Upheld(run, k) && t != 0
    requires forall m :: i <= m < k ==> Pc(run[m], t).Signal? && !Pc(run[m], t).g.SLoop?
    requires Lw(run[i], o) == Fat(r) && Mutex(run[i], r) == t
    ensures Lw(run[k], o) == Fat(r) && Mutex(run[k], r) == t && SameWaiters(run[i], run[k], r)
    decreases k - i
  {
    if i == k {
    } else {
      QuietRun(run, actor, i, k - 1, t, o, r);
      QuietAt(run, actor, k - 1, t, o, r);
    }
  }

  /** The first steps of a notify on a fat lock. */
  lemma SignalMove(run: seq<State>, actor: seq<Tid>, k: nat, t: Tid)
    requires IsRun(run, actor) && k < |actor| && W.Moves(run, actor, k, t) && Pc(run[k], t).Signal?
    ensures SignalStep(run[k], t, run[k + 1])
  {
    assert StepAt(run, actor, k);
  }

  lemma ComesToOwner(run: seq<State>, actor: seq<Tid>, i: nat, j: nat, t: Tid, o: Obj, one: bool, r: Rec)
      returns (a: nat)
    requires WholeCall(run, actor, i, j, t, Signal(o, one, SRead)) && Lw(run[i], o) == Fat(r) && Mutex(run[i], r) == t
    ensures i <= a < j && Pc(run[a + 1], t) == Signal(o, one, SOwner(r))
    ensures forall k :: i <= k <= a ==> Pc(run[k], t) == Signal(o, one, SRead)
  {
    a := W.NextMove(run, actor, i, j + 1, t);
    SignalMove(run, actor, a, t);
    QuietRun(run, actor, i, a, t, o, r);
    assert Pc(run[a + 1], t) == Signal(o, one, SOwner(r));
  }

  /** A successful notify on a fat lock comes to the walk of the waiters. */
  lemma ComesToWalk(run: seq<State>, actor: seq<Tid>, i: nat, j: nat, t: Tid, o: Obj, one: bool, r: Rec)
      returns (m: nat)
    requires WholeCall(run, actor, i, j, t, Signal(o, one, SRead)) && Res(run[j + 1], t) != IllegalMonitorState
    requires Lw(run[i], o) == Fat(r) && Mutex(run[i], r) == t
    ensures i < m < j && actor[m] == t && Pc(run[m], t) == Signal(o, one, SOwner(r))
    ensures Pc(run[m + 1], t) != Pc(run[m], t) && SameWaiters(run[i], run[m + 1], r)
  {
    var a := ComesToOwner(run, actor, i, j, t, o, one, r);
    m := W.NextMove(run, actor, a + 1, j + 1, t);
    SignalMove(run, actor, m, t);
    forall k | i <= k <= m ensures Pc(run[k], t).Signal? && !Pc(run[k], t).g.SLoop? {}
    QuietRun(run, actor, i, m + 1, t, o, r);
  }

  lemma OwnsRecord(run: seq<State>, actor: seq<Tid>, i: nat, j: nat, t: Tid, o: Obj, one: bool, r: Rec)
    requires WholeCall(run, actor, i, j, t, Signal(o, one, SRead)) && Res(run[j + 1], t) != IllegalMonitorState
    requires Lw(run[i], o) == Fat(r)
    ensures Mutex(run[i], r) == t && actor[j] == t
  {
    NotifyNotifiesOnce(run, actor, i, j, t, o, one);
    ReturnStep(run, actor, i, j, t, Signal(o, one, SRead));
  }

  /**
    Of the waiters at the call, a notify signals the first that is not signaled yet, and no other;
    notify-all signals all of them.
   */
  lemma NotifyReachesFirst(run: seq<State>, actor: seq<Tid>, i: nat, j: nat, t: Tid, o: Obj, one: bool, r: Rec)
    requires WholeCall(run, actor, i, j, t, Signal(o, one, SRead)) && Res(run[j + 1], t) != IllegalMonitorState
    requires Lw(run[i], o) == Fat(r)
    ensures Waiters(run[j + 1], r) == Waiters(run[i], r)
    ensures var ws := Waiters(run[i], r);
            forall k :: 0 <= k < |ws| ==>
              Signaled(run[j + 1], ws[k]) == W.NotifiedFlag(Flags(run[i], ws), one, k)
  {
    OwnsRecord(run, actor, i, j, t, o, one, r);
    var m := ComesToWalk(run, actor, i, j, t, o, one, r);
    W.NotifyOutcome(run, actor, m + 1, j, t, o, one, r);
  }

  // ---------------------------------------------------------------- the end of every wait

  /** How far a wait has come with its report: not there yet, about to look at the signaled flag, past that. */
  function ReportStage(p: PC): int { if !Reporting(p) then 0 else if p.w.WSignaled? then 1 else 2 }

  ghost predicate ReportMove(p: PC, p': PC, res: Outcome) {
    if p'.Idle? then res == IllegalMonitorState || ReportStage(p) == 2
    else ReportStage(p') == ReportStage(p) || ReportStage(p') == ReportStage(p) + 1
  }

  lemma ParkReportMove(s: State, t: Tid, s': State, o: Obj, r: Rec, saved: int, q: ParkStage)
    requires Pc(s, t) == Park(o, r, saved, q) && s' == ParkNext(s, t, o, r, saved, q)
    ensures ReportMove(Pc(s, t), Pc(s', t), Res(s', t))
  {
    assert Pc(s', t).Park? || Pc(s', t) == Wait(o, WSignaled(r));
  }

  lemma ReportMoves(s: State, t: Tid, s': State)
    requires OwnStep(s, t, s') && !Pc(s, t).Idle? && Operation(Pc(s, t)).0 == WaitOp
    ensures ReportMove(Pc(s, t), Pc(s', t), Res(s', t))
  {
    if InflateStep(s, t, s') { InflateMove(s, t, s'); }
    else if NotifyFlcStep(s, t, s') { NotifyMove(s, t, s'); }
    else if WaitStep(s, t, s') { WaitStageMove(s, t, s', Pc(s, t).o, Pc(s, t).w); }
    else { ParkReportMove(s, t, s', Pc(s, t).o, Pc(s, t).r, Pc(s, t).saved, Pc(s, t).q); }
  }

  ghost predicate ReportsAt(run: seq<State>, actor: seq<Tid>, k: nat, t: Tid)
    requires k < |actor| && |run| == |actor| + 1
  {
    || Pc(run[k + 1], t) == Pc(run[k], t)
    || (actor[k] == t && ReportMove(Pc(run[k], t), Pc(run[k + 1], t), Res(run[k + 1], t)))
  }

  lemma ReportAt(run: seq<State>, actor: seq<Tid>, k: nat, t: Tid)
    requires IsRun(run, actor) && k < |actor| && Upheld(run, k + 1) && t != 0
    requires !Pc(run[k], t).Idle? && Operation(Pc(run[k], t)).0 == WaitOp
    ensures ReportsAt(run, actor, k, t)
  {
    CallStepAt(run, actor, k, t);
    if actor[k] == t && OwnStep(run[k], t, run[k + 1]) { ReportMoves(run[k], t, run[k + 1]); }
  }

  /** Every wait that is not refused comes to the point where it looks at its flags, before it returns. */
  lemma WaitReports(run: seq<State>, actor: seq<Tid>, i: nat, j: nat, t: Tid, o: Obj) returns (a: nat)
    requires WholeCall(run, actor, i, j, t, Wait(o, WRead)) && Res(run[j + 1], t) != IllegalMonitorState
    ensures W.WaitEnds(run, actor, i, a, j, t)
  {
    forall k: nat | i <= k <= j ensures ReportsAt(run, actor, k, t) {
      CallGoesOn(run, actor, i, k, t);
      ReportAt(run, actor, k, t);
    }
    a := ReportRise(run, actor, i, j, t);
  }

  lemma ReportRise(run: seq<State>, actor: seq<Tid>, i: nat, j: nat, t: Tid) returns (a: nat)
    requires |run| == |actor| + 1 && i <= j < |actor| && W.Inside(run, i, j, t)
    requires forall k: nat :: i <= k <= j ==> ReportsAt(run, actor, k, t)
    requires ReportStage(Pc(run[i], t)) == 0 && Pc(run[j + 1], t).Idle? && Res(run[j + 1], t) != IllegalMonitorState
    ensures i <= a < j && W.Moves(run, actor, a, t) && Pc(run[a], t).Wait? && Pc(run[a], t).w.WSignaled?
  {
    var ph := seq(|run|, k requires 0 <= k < |run| => ReportStage(Pc(run[k], t)));
    forall k: nat | i <= k < j ensures Slow(ph, k) { assert ReportsAt(run, actor, k, t); }
    assert ReportsAt(run, actor, j, t);
    a := Rise(ph, i, j, 1);
    assert ReportsAt(run, actor, a, t);
  }
}
