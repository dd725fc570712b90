/**
  The protocol refines the re-entrant monitor with a wait set of sections 17.1 and 17.2 of the
  Java Language Specification.
 */
module MonitorRefinement {
  import opened MonitorModel
  import opened MonitorInv
  import opened MonitorFrames
  import opened MonitorSteps
  import opened MonitorTheorems

  // ---------------------------------------------------------------- the abstract monitor

  /**
    The monitor of one object: its owner, or 0, and how often the owner has entered it; the
    threads that have given it up in a wait, with the depth each gave up; and those among them
    that are still in the wait set.
   */
  datatype Monitor = Monitor(owner: Tid, depth: int, parked: map<Tid, int>, waiting: set<Tid>)

  const FREE := Monitor(0, 0, map[], {})

  /** What a thread t executing an operation of the given kind may do to the monitor, all at once. */
  ghost predicate MonitorStep(m: Monitor, m': Monitor, t: Tid, kind: Kind) {
    match kind
    case EnterOp => Locks(m, m', t)
    case ExitOp => Unlocks(m, m', t)
    case WaitOp => BeginsWait(m, m', t) || Resumes(m, m', t)
    case NotifyOp => Notifies(m, m', t)
  }

  predicate Locks(m: Monitor, m': Monitor, t: Tid) {
    (m.owner == 0 || m.owner == t) && m' == m.(owner := t, depth := m.depth + 1)
  }

  predicate Unlocks(m: Monitor, m': Monitor, t: Tid) {
    m.owner == t && m' == m.(owner := if m.depth == 1 then 0 else t, depth := m.depth - 1)
  }

  /** t gives the monitor up, however often it has entered it, and joins the wait set. */
  predicate BeginsWait(m: Monitor, m': Monitor, t: Tid) {
    && m.owner == t && t !in m.parked
    && m' == Monitor(0, 0, m.parked[t := m.depth], m.waiting + {t})
  }

  /** t takes the monitor back as deeply as it gave it up; if nobody has notified it, it leaves the wait set itself. */
  predicate Resumes(m: Monitor, m': Monitor, t: Tid) {
    && m.owner == 0 && t in m.parked
    && m' == Monitor(t, m.parked[t], m.parked - {t}, m.waiting - {t})
  }

  /** The owner t takes one thread out of the wait set. */
  ghost predicate Notifies(m: Monitor, m': Monitor, t: Tid) {
    m.owner == t && exists w: Tid :: w in m.waiting && m' == m.(waiting := m.waiting - {w})
  }

  // ---------------------------------------------------------------- the abstraction

  /** A thread at p has given up the monitor of o in a wait. */
  predicate Away(p: PC, o: Obj) { p.Park? && p.o == o && (p.q.PSleep? || p.q.PLock?) }

  function Parked(s: State, o: Obj): (m: map<Tid, int>)
    ensures forall w: Tid :: w in m <==> w != 0 && Away(Pc(s, w), o)
    ensures forall w: Tid :: w in m ==> Pc(s, w).Park? && m[w] == Pc(s, w).saved + 1
  {
    map w | w in s.pc && w != 0 && Away(s.pc[w], o) :: s.pc[w].saved + 1
  }

  function Waiting(s: State, o: Obj): (ws: set<Tid>)
    ensures forall w: Tid :: w in ws <==> w != 0 && Away(Pc(s, w), o) && !Signaled(s, w)
  {
    set w | w in s.pc && w != 0 && Away(s.pc[w], o) && !Signaled(s, w)
  }

  function OwnerDepth(s: State, o: Obj): int {
    if MonitorOwner(s, o) == 0 then 0 else Depth(s, MonitorOwner(s, o), o)
  }

  function Abs(s: State, o: Obj): Monitor {
    Monitor(MonitorOwner(s, o), OwnerDepth(s, o), Parked(s, o), Waiting(s, o))
  }

  // ---------------------------------------------------------------- owner and depth

  lemma OtherDepths(s: State, t: Tid, s': State, u: Tid, o: Obj)
    requires Inv(s) && Inv(s') && GuarThreads(s, t, s') && u != 0 && u != t
    ensures Depth(s', u, o) == Depth(s, u, o)
  {
    assert BalanceOk(s, u, o) && BalanceOk(s', u, o);
  }

  /** Threads other than t keep their depth, so owner and depth follow the depth of t. */
  lemma OwnerFollowsDepth(s: State, t: Tid, s': State, o: Obj)
    requires Inv(s) && Inv(s') && GuarThreads(s, t, s') && t != 0
    ensures Depth(s', t, o) == Depth(s, t, o) ==>
              MonitorOwner(s', o) == MonitorOwner(s, o) && OwnerDepth(s', o) == OwnerDepth(s, o)
    ensures Depth(s', t, o) != Depth(s, t, o) ==>
              && MonitorOwner(s, o) == (if Depth(s, t, o) > 0 then t else 0) && OwnerDepth(s, o) == Depth(s, t, o)
              && MonitorOwner(s', o) == (if Depth(s', t, o) > 0 then t else 0) && OwnerDepth(s', o) == Depth(s', t, o)
  {
    var m, m' := MonitorOwner(s, o), MonitorOwner(s', o);
    DepthOwner(s, t, o);
    DepthOwner(s', t, o);
    if m != 0 { DepthOwner(s, m, o); DepthOwner(s', m, o); }
    if m' != 0 { DepthOwner(s, m', o); DepthOwner(s', m', o); }
    if m != 0 && m != t { OtherDepths(s, t, s', m, o); }
    if m' != 0 && m' != t { OtherDepths(s, t, s', m', o); }
  }

  lemma StepDepth(s: State, t: Tid, s': State, o: Obj)
    requires Inv(s) && OwnStep(s, t, s') && t != 0 && Marked(s', t)
    ensures Inv(s') && GuarThreads(s, t, s') && DepthStep(s, t, s', o)
    ensures HistoryDepth(s, t, o) == Depth(s, t, o) && HistoryDepth(s', t, o) == Depth(s', t, o)
  {
    OwnStepKeepsInv(s, t, s');
    assert BalanceOk(s, t, o) && BalanceOk(s', t, o);
    assert Ready(s, t);
    StepKept(s, t, s');
  }

  /** Owner and depth after a step of t are what its history and its program counter say. */
  lemma OwnerStep(s: State, t: Tid, s': State, o: Obj)
    requires Inv(s) && OwnStep(s, t, s') && t != 0 && Marked(s', t)
    ensures GuarThreads(s, t, s') && DepthStep(s, t, s', o)
    ensures var h, h' := HistoryDepth(s, t, o), HistoryDepth(s', t, o);
            && h >= 0 && h' >= 0
            && if h' == h then
                 MonitorOwner(s', o) == MonitorOwner(s, o) && OwnerDepth(s', o) == OwnerDepth(s, o)
               else
                 && MonitorOwner(s, o) == (if h > 0 then t else 0) && OwnerDepth(s, o) == h
                 && MonitorOwner(s', o) == (if h' > 0 then t else 0) && OwnerDepth(s', o) == h'
  {
    StepDepth(s, t, s', o);
    OwnerFollowsDepth(s, t, s', o);
    DepthOwner(s, t, o);
    DepthOwner(s', t, o);
  }

  // ---------------------------------------------------------------- the wait set

  /** Neither t nor a signal flag has anything to do with the wait set of o. */
  lemma WaitSetSame(s: State, t: Tid, s': State, o: Obj)
    requires GuarThreads(s, t, s') && !Away(Pc(s, t), o) && !Away(Pc(s', t), o)
    requires forall w: Tid :: Away(Pc(s, w), o) ==> Signaled(s', w) == Signaled(s, w)
    ensures Parked(s', o) == Parked(s, o) && Waiting(s', o) == Waiting(s, o)
  {
    assert forall w: Tid :: w in Parked(s', o) <==> w in Parked(s, o);
    assert forall w: Tid :: w in Waiting(s', o) <==> w in Waiting(s, o);
  }

  /** A step that writes no signal flag and neither begins nor ends a parking. */
  ghost predicate Awake(s: State, t: Tid, s': State) {
    s'.signaled == s.signaled && (Pc(s', t).Park? ==> Pc(s', t).q.PClear?)
  }

  lemma EnterAwake(s: State, t: Tid, s': State)
    requires EnterStep(s, t, s')
    ensures Awake(s, t, s')
  {
  }

  lemma FlcAwake(s: State, t: Tid, s': State)
    requires FlcStep(s, t, s')
    ensures Awake(s, t, s')
  {
  }

  lemma InflateAwake(s: State, t: Tid, s': State)
    requires InflateStep(s, t, s')
    ensures Awake(s, t, s')
  {
  }

  lemma NotifyAwake(s: State, t: Tid, s': State)
    requires NotifyFlcStep(s, t, s') && Pc(s, t).Notify?
    ensures Awake(s, t, s')
  {
  }

  lemma ExitAwake(s: State, t: Tid, s': State)
    requires ExitStep(s, t, s')
    ensures Awake(s, t, s')
  {
  }

  lemma WaitAwake(s: State, t: Tid, s': State)
    requires WaitStep(s, t, s')
    ensures (forall w: Tid :: w != t ==> Signaled(s', w) == Signaled(s, w))
    ensures Pc(s', t).Park? ==> Pc(s', t).q.PClear?
  {
  }

  /** Steps outside wait and notify. */
  lemma OutsideAwake(s: State, t: Tid, s': State)
    requires OwnStep(s, t, s') && !Pc(s, t).Wait? && !Pc(s, t).Park? && !Pc(s, t).Signal?
    ensures Awake(s, t, s')
  {
    if EnterStep(s, t, s') { EnterAwake(s, t, s'); }
    else if FlcStep(s, t, s') { FlcAwake(s, t, s'); }
    else if InflateStep(s, t, s') { InflateAwake(s, t, s'); }
    else if NotifyFlcStep(s, t, s') { NotifyAwake(s, t, s'); }
    else if ExitStep(s, t, s') { ExitAwake(s, t, s'); }
  }

  // ---------------------------------------------------------------- wait and notify

  lemma ParkRefines(s: State, t: Tid, s': State, o: Obj)
    requires Inv(s) && ParkStep(s, t, s') && t != 0 && Marked(s', t)
    ensures Abs(s', o) == Abs(s, o) || (Pc(s, t).o == o && MonitorStep(Abs(s, o), Abs(s', o), t, WaitOp))
  {
    OwnerStep(s, t, s', o);
    ParkedBy(s, t, s', o);
  }

  lemma ParkedBy(s: State, t: Tid, s': State, o: Obj)
    requires t != 0 && ThreadOk(s, t) && ParkStep(s, t, s') && GuarThreads(s, t, s')
    ensures if Away(Pc(s, t), o) == Away(Pc(s', t), o) then
              Parked(s', o) == Parked(s, o) && Waiting(s', o) == Waiting(s, o)
            else if Away(Pc(s', t), o) then
              && t !in Parked(s, o) && Parked(s', o) == Parked(s, o)[t := Pc(s, t).saved + 1]
              && Waiting(s', o) == Waiting(s, o) + {t}
            else
              && t in Parked(s, o) && Parked(s, o)[t] == Pc(s, t).saved + 1
              && Parked(s', o) == Parked(s, o) - {t} && Waiting(s', o) == Waiting(s, o) - {t}
  {
    if !Away(Pc(s, t), o) && !Away(Pc(s', t), o) {
      WaitSetSame(s, t, s', o);
    } else if !Away(Pc(s, t), o) {
      ParkBegins(s, t, s', o);
    } else if !Away(Pc(s', t), o) {
      ParkEnds(s, t, s', o);
    } else {
      ParkStays(s, t, s', o);
    }
  }

  lemma ParkBegins(s: State, t: Tid, s': State, o: Obj)
    requires t != 0 && GuarThreads(s, t, s') && s'.signaled == s.signaled && !Signaled(s, t)
    requires !Away(Pc(s, t), o) && Away(Pc(s', t), o)
    ensures Parked(s', o) == Parked(s, o)[t := Pc(s', t).saved + 1] && t !in Parked(s, o)
    ensures Waiting(s', o) == Waiting(s, o) + {t}
  {
  }

  lemma ParkEnds(s: State, t: Tid, s': State, o: Obj)
    requires t != 0 && GuarThreads(s, t, s') && s'.signaled == s.signaled
    requires Away(Pc(s, t), o) && !Away(Pc(s', t), o)
    ensures t in Parked(s, o) && Parked(s, o)[t] == Pc(s, t).saved + 1
    ensures Parked(s', o) == Parked(s, o) - {t} && Waiting(s', o) == Waiting(s, o) - {t}
  {
  }

  lemma ParkStays(s: State, t: Tid, s': State, o: Obj)
    requires t != 0 && GuarThreads(s, t, s') && s'.signaled == s.signaled
    requires Away(Pc(s, t), o) && Away(Pc(s', t), o) && Pc(s', t).saved == Pc(s, t).saved
    ensures Parked(s', o) == Parked(s, o) && Waiting(s', o) == Waiting(s, o)
  {
  }

  /** While t is inside the mutex of r, the wait set of the object is the unsignaled waiters of r. */
  lemma WaitSetExact(s: State, t: Tid, o: Obj, r: Rec, w: Tid)
    requires Inv(s) && t != 0 && w != 0 && w != t && OwnsRec(s, t, o, r)
    ensures w in Waiting(s, o) <==> w in Waiters(s, r) && !Signaled(s, w)
  {
    RecordOfWord(s, o, r);
    assert WaitOk(s, r) && ThreadOk(s, w);
    if w in Waiters(s, r) {
      RecordOfWord(s, Pc(s, w).o, r);
    }
  }

  lemma SignalRefines(s: State, t: Tid, s': State, o: Obj)
    requires Inv(s) && SignalStep(s, t, s') && t != 0 && Marked(s', t)
    ensures Abs(s', o) == Abs(s, o) || (Pc(s, t).o == o && MonitorStep(Abs(s, o), Abs(s', o), t, NotifyOp))
  {
    OwnerStep(s, t, s', o);
    if SignalsNow(s, t) {
      assert ThreadOk(s, t);
      SignalsOne(s, t, s', Pc(s, t).o, Pc(s, t).one, Pc(s, t).g.r, Pc(s, t).g.pos, Pc(s, t).g.before, o);
    } else {
      SignalsNobody(s, t, s');
      WaitSetSame(s, t, s', o);
    }
  }

  /** t has come to a waiter that is not signaled. */
  predicate SignalsNow(s: State, t: Tid)
    requires Pc(s, t).Signal?
  {
    var g := Pc(s, t).g;
    g.SLoop? && 0 <= g.pos < |Waiters(s, g.r)| && !Signaled(s, Waiters(s, g.r)[g.pos])
  }

  lemma SignalsNobody(s: State, t: Tid, s': State)
    requires SignalStep(s, t, s') && !SignalsNow(s, t)
    ensures s'.signaled == s.signaled && !Pc(s', t).Park?
  {
  }

  lemma OneFlag(s: State, t: Tid, s': State, w: Tid, o: Obj)
    requires GuarThreads(s, t, s') && !Pc(s, t).Park? && !Pc(s', t).Park? && s'.signaled == s.signaled[w := true]
    ensures Parked(s', o) == Parked(s, o) && Waiting(s', o) == Waiting(s, o) - {w}
  {
    assert forall u: Tid :: Away(Pc(s', u), o) <==> Away(Pc(s, u), o);
    assert forall u: Tid :: u in Parked(s', o) <==> u in Parked(s, o);
    assert forall u: Tid :: u in Waiting(s', o) <==> u in Waiting(s, o) - {w};
  }

  lemma SignalsOne(s: State, t: Tid, s': State, o': Obj, one: bool, r: Rec, pos: int, before: seq<bool>, o: Obj)
    requires Inv(s) && t != 0 && Pc(s, t) == Signal(o', one, SLoop(r, pos, before)) && 0 <= pos < |Waiters(s, r)|
    requires s' == AfterSignalLoop(s, t, o', one, r, pos, before) && !Signaled(s, Waiters(s, r)[pos])
    requires OwnsRec(s, t, o', r) && GuarThreads(s, t, s')
    ensures Parked(s', o) == Parked(s, o)
    ensures o != o' ==> Waiting(s', o) == Waiting(s, o)
    ensures Waiters(s, r)[pos] in Waiting(s, o') && (o == o' ==> Waiting(s', o) == Waiting(s, o) - {Waiters(s, r)[pos]})
  {
    var w := Waiters(s, r)[pos];
    assert w in Waiters(s, r) && WaitOk(s, r);
    WaitSetExact(s, t, o', r, w);
    OneFlag(s, t, s', w, o);
  }

  // ---------------------------------------------------------------- refinement

  lemma OutsideRefines(s: State, t: Tid, s': State, o: Obj)
    requires Inv(s) && OwnStep(s, t, s') && t != 0 && Marked(s', t)
    requires !Pc(s, t).Wait? && !Pc(s, t).Park? && !Pc(s, t).Signal?
    ensures Abs(s', o) == Abs(s, o) ||
            (&& !Pc(s, t).Idle? && Operation(Pc(s, t)).1 == o
             && MonitorStep(Abs(s, o), Abs(s', o), t, Operation(Pc(s, t)).0))
  {
    OwnerStep(s, t, s', o);
    OutsideAwake(s, t, s');
    WaitSetSame(s, t, s', o);
  }

  lemma WaitRefines(s: State, t: Tid, s': State, o: Obj)
    requires Inv(s) && WaitStep(s, t, s') && t != 0 && Marked(s', t)
    ensures Abs(s', o) == Abs(s, o)
  {
    OwnerStep(s, t, s', o);
    WaitAwake(s, t, s');
    WaitSetSame(s, t, s', o);
  }

  /** An interruption, or the reuse of a finished thread. */
  lemma AsideRefines(s: State, t: Tid, s': State, o: Obj)
    requires (InterruptStep(s, t, s') || RecycleStep(s, t, s')) && ThreadOk(s, t)
    ensures Abs(s', o) == Abs(s, o)
  {
    assert forall w: Tid :: Signaled(s', w) == Signaled(s, w);
    assert s'.pc == s.pc && s'.lw == s.lw && s'.recs == s.recs;
    assert Parked(s', o) == Parked(s, o);
    assert Waiting(s', o) == Waiting(s, o);
  }

  /**
    Every step of every thread leaves every monitor alone, or performs one action of the
    abstract monitor on the object of the operation the thread is executing.
   */
  lemma StepRefinesMonitor(s: State, t: Tid, s': State, o: Obj)
    requires Inv(s) && Step(s, t, s') && Marked(s', t)
    ensures Abs(s', o) == Abs(s, o) ||
            (&& !Pc(s, t).Idle? && Operation(Pc(s, t)).1 == o
             && MonitorStep(Abs(s, o), Abs(s', o), t, Operation(Pc(s, t)).0))
  {
    if !OwnStep(s, t, s') {
      assert ThreadOk(s, t);
      AsideRefines(s, t, s', o);
    } else if Pc(s, t).Park? {
      ParkRefines(s, t, s', o);
    } else if Pc(s, t).Signal? {
      SignalRefines(s, t, s', o);
    } else if Pc(s, t).Wait? {
      WaitRefines(s, t, s', o);
    } else {
      OutsideRefines(s, t, s', o);
    }
  }

  /** The same for every step of every run. */
  lemma RunRefinesMonitor(run: seq<State>, actor: seq<Tid>, i: nat, o: Obj)
    requires IsRun(run, actor) && i < |actor| && Upheld(run, i + 1)
    ensures Abs(run[0], o) == FREE
    ensures Abs(run[i + 1], o) == Abs(run[i], o) ||
            (var p := Pc(run[i], actor[i]);
             && !p.Idle? && Operation(p).1 == o
             && MonitorStep(Abs(run[i], o), Abs(run[i + 1], o), actor[i], Operation(p).0))
  {
    RunInv(run, actor, i);
    assert StepAt(run, actor, i) && AllMarked(run[i + 1]);
    StepRefinesMonitor(run[i], actor[i], run[i + 1], o);
  }

  /**
    A notify returns once it has taken a thread out of the wait set, or with the wait set empty;
    a notify-all returns with the wait set empty.
   */
  lemma NotifyReturns(s: State, t: Tid, s': State)
    requires Inv(s) && SignalStep(s, t, s') && t != 0 && Pc(s, t).g.SLoop? && Pc(s', t) == Idle && Marked(s', t)
    ensures var m, m' := Abs(s, Pc(s, t).o), Abs(s', Pc(s, t).o);
            m.waiting == {} || (Pc(s, t).one && Notifies(m, m', t))
  {
    assert ThreadOk(s, t);
    var Signal(o, one, SLoop(r, pos, before)) := Pc(s, t);
    OwnerStep(s, t, s', o);
    if pos < |Waiters(s, r)| {
      SignalsOne(s, t, s', o, one, r, pos, before, o);
    } else {
      NobodyWaits(s, t, o, one, r, before);
    }
  }

  lemma NobodyWaits(s: State, t: Tid, o: Obj, one: bool, r: Rec, before: seq<bool>)
    requires Inv(s) && t != 0 && !Pc(s, t).Park? && OwnsRec(s, t, o, r)
    requires FlagsOk(s, r, one, |Waiters(s, r)|, before)
    ensures Waiting(s, o) == {}
  {
    forall w | w in Waiting(s, o) ensures false {
      WaitSetExact(s, t, o, r, w);
    }
  }
}
