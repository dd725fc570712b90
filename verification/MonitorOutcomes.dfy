/** How monitor operations end, for every run up to the first failure of the assertion at lock.cpp line 703. */
module MonitorOutcomes {
  import opened MonitorModel
  import opened MonitorInv
  import opened MonitorFrames
  import opened MonitorSteps
  import opened MonitorTheorems

  ghost predicate HeldMoved(s: State, t: Tid, s': State, o: Obj, d: int) {
    forall o': Obj :: Held(s', t, o') == Held(s, t, o') + (if o' == o then d else 0)
  }

  /**
    A step inside an operation on o stays in that operation, or returns from it.  Exit, wait and
    notify fail exactly for a thread that has not entered o more often than it has left it; a
    successful enter or exit is counted once.  Only a wait can report an interruption.
   */
  ghost predicate CallStep(s: State, t: Tid, s': State)
    requires !Pc(s, t).Idle?
  {
    var (kind, o) := Operation(Pc(s, t));
    if !Pc(s', t).Idle? then
      Operation(Pc(s', t)) == (kind, o) && HeldMoved(s, t, s', o, 0)
    else if Res(s', t) == IllegalMonitorState then
      kind != EnterOp && Held(s, t, o) == 0 && HeldMoved(s, t, s', o, 0)
    else
      && (kind != EnterOp ==> Held(s, t, o) > 0) && (kind != WaitOp ==> Res(s', t) == Ok)
      && HeldMoved(s, t, s', o, if kind == EnterOp then 1 else if kind == ExitOp then -1 else 0)
  }

  lemma StaysIn(s: State, t: Tid, s': State, p': PC)
    requires !Pc(s, t).Idle? && !p'.Idle? && Operation(p') == Operation(Pc(s, t))
    requires s'.pc == s.pc[t := p'] && s'.hist == s.hist
    ensures CallStep(s, t, s')
  {
  }

  lemma ReturnsOk(s: State, t: Tid, s': State, o: Obj, d: int)
    requires !Pc(s, t).Idle? && Operation(Pc(s, t)).1 == o
    requires d == (match Operation(Pc(s, t)).0 case EnterOp => 1 case ExitOp => -1 case _ => 0)
    requires Operation(Pc(s, t)).0 != EnterOp ==> Held(s, t, o) > 0
    requires s'.pc == s.pc[t := Idle] && Res(s', t) != IllegalMonitorState
    requires Operation(Pc(s, t)).0 != WaitOp ==> Res(s', t) == Ok
    requires s'.hist.held == (if d == 0 then s.hist.held else s.hist.held[(t, o) := Held(s, t, o) + d])
    ensures CallStep(s, t, s')
  {
  }

  lemma ReturnsIllegal(s: State, t: Tid, s': State, o: Obj)
    requires !Pc(s, t).Idle? && Operation(Pc(s, t)).1 == o && Operation(Pc(s, t)).0 != EnterOp && Held(s, t, o) == 0
    requires s'.pc == s.pc[t := Idle] && Res(s', t) == IllegalMonitorState && s'.hist.held == s.hist.held
    ensures CallStep(s, t, s')
  {
  }

  lemma EnterCall(s: State, t: Tid, s': State)
    requires EnterStep(s, t, s')
    ensures CallStep(s, t, s')
  {
    var Enter(o, e) := Pc(s, t);
    match e
    case ERead => StaysIn(s, t, s', Enter(o, ECas(Lw(s, o))));
    case ECas(w) =>
      if Lw(s, o) == UNLOCKED { ReturnsOk(s, t, s', o, 1); } else { StaysIn(s, t, s', AfterCas(t, o, w)); }
    case EIncRead => StaysIn(s, t, s', Enter(o, EIncWrite(Lw(s, o))));
    case EIncWrite(w) => ReturnsOk(s, t, s', o, 1);
    case _ => EnterRecordCall(s, t, s', o, e);
  }

  lemma EnterRecordCall(s: State, t: Tid, s': State, o: Obj, e: EnterStage)
    requires Pc(s, t) == Enter(o, e) && s' == EnterNext(s, t, o, e)
    requires e.EOwner? || e.EFatInc? || e.ELock? || e.ESetOwner?
    ensures CallStep(s, t, s')
  {
    match e
    case EOwner(r) => StaysIn(s, t, s', Enter(o, if Owner(s, r) == t then EFatInc(r) else ELock(r)));
    case EFatInc(r) => ReturnsOk(s, t, s', o, 1);
    case ELock(r) => StaysIn(s, t, s', Enter(o, ESetOwner(r)));
    case ESetOwner(r) => ReturnsOk(s, t, s', o, 1);
  }

  lemma FlcCall(s: State, t: Tid, s': State)
    requires FlcStep(s, t, s')
    ensures CallStep(s, t, s')
  {
    var Flc(o, i, f) := Pc(s, t);
    var found: bool :| FlcEnabled(s, i, f, found) && s' == FlcNext(s, t, o, i, f, found);
    if f.FEnqueue? || f.FCheck? || f.FSleep? || f.FRestore? || f.FUnlock? {
      QueuedCall(s, t, s', o, i, f);
    } else {
      ArrivingCall(s, t, s', o, i, f, found);
    }
  }

  lemma ArrivingCall(s: State, t: Tid, s': State, o: Obj, i: Tid, f: FlcStage, found: bool)
    requires Pc(s, t) == Flc(o, i, f) && s' == FlcNext(s, t, o, i, f, found)
    requires f.FLookup? || f.FLock? || f.FReadBit? || f.FSetBit? || f.FReread?
    ensures CallStep(s, t, s')
  {
    match f
    case FLookup => StaysIn(s, t, s', if found then Flc(o, i, FLock) else Enter(o, ERead));
    case FLock => StaysIn(s, t, s', Flc(o, i, FReadBit));
    case FReadBit => StaysIn(s, t, s', Flc(o, i, FSetBit(Bit(s, i))));
    case FSetBit(prev) => StaysIn(s, t, s', Flc(o, i, FReread(prev)));
    case FReread(prev) => StaysIn(s, t, s', Flc(o, i, if OwnThin(Lw(s, o), i) then FEnqueue else FRestore(prev)));
  }

  lemma QueuedCall(s: State, t: Tid, s': State, o: Obj, i: Tid, f: FlcStage)
    requires Pc(s, t) == Flc(o, i, f) && s' == FlcNext(s, t, o, i, f, false)
    requires f.FEnqueue? || f.FCheck? || f.FSleep? || f.FRestore? || f.FUnlock?
    ensures CallStep(s, t, s')
  {
    match f
    case FEnqueue => StaysIn(s, t, s', Flc(o, i, FCheck));
    case FCheck => StaysIn(s, t, s', Flc(o, i, if Fobj(s, t) == None then FUnlock else FSleep));
    case FSleep => StaysIn(s, t, s', Flc(o, i, FCheck));
    case FRestore(prev) => StaysIn(s, t, s', Flc(o, i, FUnlock));
    case FUnlock => StaysIn(s, t, s', Enter(o, ERead));
  }

  lemma InflateCall(s: State, t: Tid, s': State)
    requires InflateStep(s, t, s')
    ensures CallStep(s, t, s')
  {
    var Inflate(o, why, st) := Pc(s, t);
    var nrec :| InflateEnabled(s, st, nrec) && s' == InflateNext(s, t, o, why, st, nrec);
    if st.IGetTable? {
      GetTableCall(s, t, s', o, why, nrec);
    } else {
      InflateStageCall(s, t, s', o, why, st, nrec);
    }
  }

  lemma InflateStageCall(s: State, t: Tid, s': State, o: Obj, why: Why, st: InflateStage, nrec: Rec)
    requires Pc(s, t) == Inflate(o, why, st) && s' == InflateNext(s, t, o, why, st, nrec) && !st.IGetTable?
    ensures CallStep(s, t, s')
  {
    match st
    case IGetRead => StaysIn(s, t, s', Inflate(o, why, if Lw(s, o).Fat? then ILock(Lw(s, o).rec) else IGetTable));
    case ILock(r) => StaysIn(s, t, s', Inflate(o, why, IOwner(r)));
    case IOwner(r) => StaysIn(s, t, s', Inflate(o, why, IRead(r)));
    case IRead(r) =>
      StaysIn(s, t, s', if Lw(s, o).Fat? then AfterInflate(o, r, why) else Inflate(o, why, ICount(r, Lw(s, o).count)));
    case ICount(r, c) => StaysIn(s, t, s', Inflate(o, why, ISet(r)));
    case ISet(r) => StaysIn(s, t, s', AfterInflate(o, r, why));
  }

  lemma GetTableCall(s: State, t: Tid, s': State, o: Obj, why: Why, nrec: Rec)
    requires Pc(s, t) == Inflate(o, why, IGetTable) && s' == InflateNext(s, t, o, why, IGetTable, nrec)
    ensures CallStep(s, t, s')
  {
    StaysIn(s, t, s', Inflate(o, why, ILock(if o in s.recs.table then s.recs.table[o] else nrec)));
  }

  lemma OverflowCall(s: State, t: Tid, s': State)
    requires OverflowStep(s, t, s')
    ensures CallStep(s, t, s')
  {
    StaysIn(s, t, s', Notify(Pc(s, t).o, ROverflow, NLock));
  }

  /** Where the history of t in o already tells whether t owns o. */
  lemma HeldFacts(s: State, t: Tid, o: Obj)
    requires Inv(s) && t != 0
    ensures Expected(Pc(s, t), Held(s, t, o), o) >= 0
    ensures Expected(Pc(s, t), Held(s, t, o), o) > 0 <==> MonitorOwner(s, o) == t
  {
    assert BalanceOk(s, t, o);
    DepthOwner(s, t, o);
  }

  lemma NotifyCall(s: State, t: Tid, s': State)
    requires Inv(s) && t != 0 && NotifyFlcStep(s, t, s')
    ensures CallStep(s, t, s')
  {
    var Notify(o, ret, n) := Pc(s, t);
    if n.NUnlock? {
      NotifyReturn(s, t, s', o, ret);
    } else {
      assert ThreadOk(s, t);
      NotifyStageCall(s, t, s', o, ret, n);
    }
  }

  lemma NotifyStageCall(s: State, t: Tid, s': State, o: Obj, ret: Ret, n: NotifyStage)
    requires Pc(s, t) == Notify(o, ret, n) && s' == NotifyNext(s, t, o, ret, n)
    requires NotifyOk(s, t, o, ret, n) && !n.NUnlock?
    ensures CallStep(s, t, s')
  {
    match n
    case NLock => StaysIn(s, t, s', Notify(o, ret, NLoop(0)));
    case NClear => StaysIn(s, t, s', Notify(o, ret, NUnlock));
    case NWake(pos) => StaysIn(s, t, s', Notify(o, ret, NLoop(pos + 1)));
    case NLoop(pos) => NotifyLoopCall(s, t, s', o, ret, pos);
    case NWord(pos) => NotifyWordCall(s, t, s', o, ret, pos);
  }

  lemma NotifyLoopCall(s: State, t: Tid, s': State, o: Obj, ret: Ret, pos: int)
    requires Pc(s, t) == Notify(o, ret, NLoop(pos)) && s' == NotifyNext(s, t, o, ret, NLoop(pos)) && 0 <= pos
    ensures CallStep(s, t, s')
  {
    StaysIn(s, t, s', Notify(o, ret, if pos >= |List(s, t)| then NClear
                                     else if Fobj(s, List(s, t)[pos]) != Some(o) then NWord(pos) else NWake(pos)));
  }

  lemma NotifyWordCall(s: State, t: Tid, s': State, o: Obj, ret: Ret, pos: int)
    requires Pc(s, t) == Notify(o, ret, NWord(pos)) && s' == NotifyNext(s, t, o, ret, NWord(pos))
    requires 0 <= pos < |List(s, t)| && Fobj(s, List(s, t)[pos]).Some?
    ensures CallStep(s, t, s')
  {
    var cobj := Fobj(s, List(s, t)[pos]).value;
    StaysIn(s, t, s', if Lw(s, cobj).Thin? then Inflate(cobj, InNotify(o, ret, pos), IGetRead)
                      else Notify(o, ret, NWake(pos)));
  }

  lemma NotifyReturn(s: State, t: Tid, s': State, o: Obj, ret: Ret)
    requires Inv(s) && t != 0 && Pc(s, t) == Notify(o, ret, NUnlock) && s' == AfterNotify(SetLock(s, t, 0), t, o, ret)
    ensures CallStep(s, t, s')
  {
    HeldFacts(s, t, o);
    match ret
    case RExit => ReturnsOk(s, t, s', o, -1);
    case ROverflow => ReturnsOk(s, t, s', o, 1);
    case RWait(r) => StaysIn(s, t, s', Wait(o, WAdd(r)));
  }

  lemma ExitReadCall(s: State, t: Tid, s': State, o: Obj)
    requires Inv(s) && t != 0 && Pc(s, t) == Exit(o, XRead) && s' == AfterExitRead(s, t, o)
    ensures CallStep(s, t, s')
  {
    HeldFacts(s, t, o);
    var w := Lw(s, o);
    if w == Thin(t, 0) { StaysIn(s, t, s', Exit(o, XStore)); }
    else if OwnThin(w, t) { StaysIn(s, t, s', Exit(o, XDecRead)); }
    else if w.Fat? { StaysIn(s, t, s', Exit(o, XOwner(w.rec))); }
    else { ReturnsIllegal(s, t, s', o); }
  }

  /** A thread whose program counter is plain owns a record exactly if it is recorded as its owner. */
  lemma RecordedOwner(s: State, t: Tid, o: Obj, r: Rec)
    requires Inv(s) && t != 0 && Lw(s, o) == Fat(r) && !OwnerGap(Pc(s, t), r)
    ensures Owner(s, r) == t <==> MonitorOwner(s, o) == t
  {
    RecordOfWord(s, o, r);
    assert RecOk(s, r);
  }

  lemma ExitRecordCall(s: State, t: Tid, s': State, o: Obj, x: ExitStage)
    requires Inv(s) && t != 0 && Pc(s, t) == Exit(o, x) && s' == ExitNext(s, t, o, x)
    requires x.XOwner? || x.XCount? || x.XClear? || x.XUnlock?
    ensures CallStep(s, t, s')
  {
    HeldFacts(s, t, o);
    assert ThreadOk(s, t);
    match x
    case XOwner(r) =>
      RecordedOwner(s, t, o, r);
      if Owner(s, r) != t { ReturnsIllegal(s, t, s', o); } else { StaysIn(s, t, s', Exit(o, XCount(r))); }
    case XCount(r) =>
      if Count(s, r) != 0 { ReturnsOk(s, t, s', o, -1); } else { StaysIn(s, t, s', Exit(o, XClear(r))); }
    case XClear(r) => StaysIn(s, t, s', Exit(o, XUnlock(r)));
    case XUnlock(r) => ReturnsOk(s, t, s', o, -1);
  }

  lemma ExitCall(s: State, t: Tid, s': State)
    requires Inv(s) && t != 0 && ExitStep(s, t, s')
    ensures CallStep(s, t, s')
  {
    var Exit(o, x) := Pc(s, t);
    match x
    case XRead => ExitReadCall(s, t, s', o);
    case XOwner(_) => ExitRecordCall(s, t, s', o, x);
    case XCount(_) => ExitRecordCall(s, t, s', o, x);
    case XClear(_) => ExitRecordCall(s, t, s', o, x);
    case XUnlock(_) => ExitRecordCall(s, t, s', o, x);
    case _ => ExitThinCall(s, t, s', o, x);
  }

  lemma ExitThinCall(s: State, t: Tid, s': State, o: Obj, x: ExitStage)
    requires Inv(s) && t != 0 && Pc(s, t) == Exit(o, x) && s' == ExitNext(s, t, o, x)
    requires x.XStore? || x.XBit? || x.XDecRead? || x.XDecWrite?
    ensures CallStep(s, t, s')
  {
    HeldFacts(s, t, o);
    assert ThreadOk(s, t);
    match x
    case XStore => StaysIn(s, t, s', Exit(o, XBit));
    case XBit => if Bit(s, t) { StaysIn(s, t, s', Notify(o, RExit, NLock)); } else { ReturnsOk(s, t, s', o, -1); }
    case XDecRead => StaysIn(s, t, s', Exit(o, XDecWrite(Lw(s, o))));
    case XDecWrite(w) => ReturnsOk(s, t, s', o, -1);
  }

  lemma WaitCall(s: State, t: Tid, s': State)
    requires Inv(s) && t != 0 && WaitStep(s, t, s')
    ensures CallStep(s, t, s')
  {
    var Wait(o, w) := Pc(s, t);
    HeldFacts(s, t, o);
    assert ThreadOk(s, t);
    match w
    case WRead => WaitReadCall(s, t, s', o);
    case WOwner(r) => WaitOwnerCall(s, t, s', o, r);
    case WAdd(r) => StaysIn(s, t, s', Wait(o, WSave(r)));
    case WSave(r) => StaysIn(s, t, s', Park(o, r, Count(s, r), PClear));
    case WReset(r, was) => ReturnsOk(s, t, s', o, 0);
    case _ => ReportCall(s, t, s', o, w);
  }

  lemma WaitReadCall(s: State, t: Tid, s': State, o: Obj)
    requires Inv(s) && t != 0 && Pc(s, t) == Wait(o, WRead) && s' == AfterWaitRead(s, t, o)
    ensures CallStep(s, t, s')
  {
    if Lw(s, o).Fat? { StaysIn(s, t, s', Wait(o, WOwner(Lw(s, o).rec))); }
    else if OwnThin(Lw(s, o), t) { StaysIn(s, t, s', Inflate(o, BeforeWait, IGetRead)); }
    else {
      HeldFacts(s, t, o);
      ReturnsIllegal(s, t, s', o);
    }
  }

  lemma WaitOwnerCall(s: State, t: Tid, s': State, o: Obj, r: Rec)
    requires Inv(s) && t != 0 && Pc(s, t) == Wait(o, WOwner(r)) && s' == WaitNext(s, t, o, WOwner(r))
    ensures CallStep(s, t, s')
  {
    if Owner(s, r) != t {
      assert ThreadOk(s, t);
      HeldFacts(s, t, o);
      RecordedOwner(s, t, o, r);
      ReturnsIllegal(s, t, s', o);
    } else {
      StaysIn(s, t, s', Wait(o, WAdd(r)));
    }
  }

  lemma ReportCall(s: State, t: Tid, s': State, o: Obj, w: WaitStage)
    requires Pc(s, t) == Wait(o, w) && s' == WaitNext(s, t, o, w)
    requires w.WSignaled? || w.WInterrupted? || w.WClear?
    ensures CallStep(s, t, s')
  {
    match w
    case WSignaled(r) => StaysIn(s, t, s', Wait(o, if Signaled(s, t) then WReset(r, false) else WInterrupted(r)));
    case WInterrupted(r) => StaysIn(s, t, s', Wait(o, WClear(r, IsInterrupted(s, t))));
    case WClear(r, was) => StaysIn(s, t, s', Wait(o, WReset(r, was)));
  }

  lemma ParkCall(s: State, t: Tid, s': State)
    requires ParkStep(s, t, s')
    ensures CallStep(s, t, s')
  {
    var Park(o, r, saved, q) := Pc(s, t);
    match q
    case PClear => StaysIn(s, t, s', Park(o, r, saved, PUnlock));
    case PUnlock => StaysIn(s, t, s', Park(o, r, saved, PSleep));
    case PSleep => StaysIn(s, t, s', Park(o, r, saved, PLock));
    case PLock => StaysIn(s, t, s', Park(o, r, saved, POwner));
    case POwner => StaysIn(s, t, s', Park(o, r, saved, PRemove));
    case PRemove => StaysIn(s, t, s', Park(o, r, saved, PRestore));
    case PRestore => StaysIn(s, t, s', Wait(o, WSignaled(r)));
  }

  lemma SignalCall(s: State, t: Tid, s': State)
    requires Inv(s) && t != 0 && SignalStep(s, t, s')
    ensures CallStep(s, t, s')
  {
    var Signal(o, one, g) := Pc(s, t);
    match g
    case SRead => SignalReadCall(s, t, s', o, one);
    case SOwner(r) => SignalOwnerCall(s, t, s', o, one, r);
    case SLoop(r, pos, before) =>
      HeldFacts(s, t, o);
      assert ThreadOk(s, t);
      SignalLoopCall(s, t, s', o, one, r, pos, before);
  }

  lemma SignalReadCall(s: State, t: Tid, s': State, o: Obj, one: bool)
    requires Inv(s) && t != 0 && Pc(s, t) == Signal(o, one, SRead) && s' == AfterSignalRead(s, t, o, one)
    ensures CallStep(s, t, s')
  {
    HeldFacts(s, t, o);
    if Lw(s, o).Fat? { StaysIn(s, t, s', Signal(o, one, SOwner(Lw(s, o).rec))); }
    else if OwnThin(Lw(s, o), t) { ReturnsOk(s, t, s', o, 0); }
    else { ReturnsIllegal(s, t, s', o); }
  }

  lemma SignalOwnerCall(s: State, t: Tid, s': State, o: Obj, one: bool, r: Rec)
    requires Inv(s) && t != 0 && Pc(s, t) == Signal(o, one, SOwner(r)) && s' == SignalNext(s, t, o, one, SOwner(r))
    ensures CallStep(s, t, s')
  {
    if Owner(s, r) != t {
      assert ThreadOk(s, t);
      HeldFacts(s, t, o);
      RecordedOwner(s, t, o, r);
      ReturnsIllegal(s, t, s', o);
    } else {
      StaysIn(s, t, s', Signal(o, one, SLoop(r, 0, Flags(s, Waiters(s, r)))));
    }
  }

  lemma SignalLoopCall(s: State, t: Tid, s': State, o: Obj, one: bool, r: Rec, pos: int, before: seq<bool>)
    requires Pc(s, t) == Signal(o, one, SLoop(r, pos, before)) && 0 <= pos && Held(s, t, o) > 0
    requires s' == AfterSignalLoop(s, t, o, one, r, pos, before)
    ensures CallStep(s, t, s')
  {
    var ws := Waiters(s, r);
    if pos >= |ws| || (one && !Signaled(s, ws[pos])) { ReturnsOk(s, t, s', o, 0); }
    else { StaysIn(s, t, s', Signal(o, one, SLoop(r, pos + 1, before))); }
  }

  /** Every own step of a thread inside an operation is a step of that call. */
  lemma StepOutcome(s: State, t: Tid, s': State)
    requires Inv(s) && t != 0 && !Pc(s, t).Idle? && OwnStep(s, t, s')
    ensures CallStep(s, t, s')
  {
    if EnterStep(s, t, s') { EnterCall(s, t, s'); }
    else if FlcStep(s, t, s') { FlcCall(s, t, s'); }
    else if InflateStep(s, t, s') { InflateCall(s, t, s'); }
    else if OverflowStep(s, t, s') { OverflowCall(s, t, s'); }
    else if NotifyFlcStep(s, t, s') { NotifyCall(s, t, s'); }
    else if ExitStep(s, t, s') { ExitCall(s, t, s'); }
    else if WaitStep(s, t, s') { WaitCall(s, t, s'); }
    else if ParkStep(s, t, s') { ParkCall(s, t, s'); }
    else { SignalCall(s, t, s'); }
  }

  /** Every operation of every run ends as specified. */
  lemma OutcomeExact(run: seq<State>, actor: seq<Tid>, i: nat)
    requires IsRun(run, actor) && i < |actor| && Upheld(run, i)
    requires !Pc(run[i], actor[i]).Idle? && OwnStep(run[i], actor[i], run[i + 1])
    ensures CallStep(run[i], actor[i], run[i + 1])
  {
    RunInv(run, actor, i);
    assert StepAt(run, actor, i);
    StepOutcome(run[i], actor[i], run[i + 1]);
  }
}
