/**
  Every monitor operation comes to its end: a thread that no other thread stands in the way of
  returns from the operation it is in after boundedly many steps of its own, and with the outcome
  the operation promises.  What may stand in the way is said exactly.
 */
module MonitorFinish {
  import opened MonitorModel
  import opened MonitorInv
  import opened MonitorFrames
  import opened MonitorSteps
  import opened MonitorTheorems
  import opened MonitorOutcomes
  import opened MonitorPaths
  import P = MonitorProgress

  // ---------------------------------------------------------------- what stands in the way

  /** The monitor of o is free, or t owns it. */
  predicate FreeFor(s: State, t: Tid, o: Obj) { MonitorOwner(s, o) == 0 || MonitorOwner(s, o) == t }

  /** The flc_lock of i is free, or t is inside it. */
  predicate LockFree(s: State, t: Tid, i: Tid) { Lock(s, i) == 0 || Lock(s, i) == t }

  /** One more enter of o by t needs more than the lockword can count. */
  predicate Overflows(s: State, t: Tid, o: Obj) { OwnThin(Lw(s, o), t) && Lw(s, o).count >= THIN_LOCK_COUNT_MAX }

  /** The operation t is in still has to run notify_flc_waiters, inside the flc_lock of t. */
  predicate WillNotify(s: State, t: Tid) {
    match Pc(s, t)
    case Enter(o, e) => Overflows(s, t, o)
    case Inflate(_, _, _) => true
    case Overflowed(_, _) => true
    case Notify(_, _, _) => true
    case Exit(o, x) => Bit(s, t) && (x.XBit? || ((x.XRead? || x.XStore?) && Lw(s, o) == Thin(t, 0)))
    case Wait(o, w) => w.WRead? && OwnThin(Lw(s, o), t)
    case _ => false
  }

  /** The cached lockword w sends t to a thread that does not own o any more. */
  predicate Stale(s: State, t: Tid, o: Obj, w: Word) { Lw(s, o) != UNLOCKED && w.Thin? && w.tid != t }

  /** Nothing that another thread holds stands in the way of t. */
  predicate Unhindered(s: State, t: Tid) {
    && (WillNotify(s, t) ==> LockFree(s, t, t))
    && match Pc(s, t)
       case Enter(o, e) => FreeFor(s, t, o) && (e.ECas? && Stale(s, t, o, e.w) ==> LockFree(s, t, e.w.tid))
       case Flc(o, i, f) =>
         && FreeFor(s, t, o) && LockFree(s, t, i) && (Overflows(s, t, o) ==> LockFree(s, t, t))
         && !f.FEnqueue? && (f.FCheck? || f.FSleep? ==> Fobj(s, t) == None)
       case Park(o, _, _, q) => q.PSleep? || q.PLock? ==> MonitorOwner(s, o) == 0
       case _ => true
  }

  // ---------------------------------------------------------------- how much is left to do

  /** What follows notify_flc_waiters. */
  function Tail(ret: Ret): int { if ret.RWait? then 13 else 0 }

  function EnterLeft(s: State, t: Tid, o: Obj, e: EnterStage): int {
    var n := 10 * |List(s, t)|;
    match e
    case ERead => n + 14
    case ECas(w) => if Lw(s, o) == UNLOCKED then 1 else if Stale(s, t, o, w) then n + 25 else n + 13
    case EIncRead => 2
    case EIncWrite(_) => 1
    case EOwner(_) => 3
    case EFatInc(_) => 1
    case ELock(_) => 2
    case ESetOwner(_) => 1
  }

  function FlcLeft(f: FlcStage): int {
    match f
    case FLookup => 24
    case FLock => 23
    case FReadBit => 22
    case FSetBit(_) => 21
    case FReread(_) => 20
    case FEnqueue => 19
    case FSleep => 18
    case FCheck => 17
    case FRestore(_) => 16
    case FUnlock => 15
  }

  function ExitLeft(x: ExitStage, n: int): int {
    match x
    case XRead => 10 * n + 7
    case XStore => 10 * n + 6
    case XBit => 10 * n + 5
    case XDecRead => 2
    case XDecWrite(_) => 1
    case XOwner(_) => 4
    case XCount(_) => 3
    case XClear(_) => 2
    case XUnlock(_) => 1
  }

  function WaitLeft(w: WaitStage, n: int): int {
    match w
    case WRead => 10 * n + 25
    case WOwner(_) => 14
    case WAdd(_) => 13
    case WSave(_) => 12
    case WSignaled(_) => 4
    case WInterrupted(_) => 3
    case WClear(_, _) => 2
    case WReset(_, _) => 1
  }

  function ParkLeft(q: ParkStage): int {
    match q
    case PClear => 11
    case PUnlock => 10
    case PSleep => 9
    case PLock => 8
    case POwner => 7
    case PRemove => 6
    case PRestore => 5
  }

  function SignalLeft(s: State, o: Obj, g: SignalStage): int {
    match g
    case SRead => if Lw(s, o).Fat? then |Waiters(s, Lw(s, o).rec)| + 3 else 1
    case SOwner(r) => |Waiters(s, r)| + 2
    case SLoop(r, pos, _) => |Waiters(s, r)| - pos + 1
  }

  /** An upper bound for the steps that t needs to return from the operation it is in. */
  function Left(s: State, t: Tid): int {
    var n := |List(s, t)|;
    match Pc(s, t)
    case Idle => 0
    case Enter(o, e) => EnterLeft(s, t, o, e)
    case Flc(_, _, f) => 10 * n + FlcLeft(f)
    case Inflate(_, why, st) =>
      (match why
       case Overflow => 10 * n + 5 + P.InflateRank(st)
       case BeforeWait => 10 * n + 17 + P.InflateRank(st)
       case InNotify(_, ret, _) => P.FlcWork(Pc(s, t), n) + Tail(ret))
    case Overflowed(_, _) => 10 * n + 5
    case Notify(_, ret, st) => (if st.NLock? then 10 * n + 4 else P.FlcWork(Pc(s, t), n)) + Tail(ret)
    case Exit(_, x) => ExitLeft(x, n)
    case Wait(_, w) => WaitLeft(w, n)
    case Park(_, _, _, q) => ParkLeft(q)
    case Signal(o, _, g) => SignalLeft(s, o, g)
  }

  lemma SomeLeft(s: State, t: Tid)
    requires ThreadOk(s, t) && !Pc(s, t).Idle?
    ensures Left(s, t) >= 1
  {
  }

  // ---------------------------------------------------------------- every step counts

  /** t has returned, or has less to do, with nobody in the way. */
  ghost predicate Advances(s: State, t: Tid, s': State) {
    Marked(s', t) && (Pc(s', t).Idle? || (Unhindered(s', t) && Left(s', t) < Left(s, t)))
  }

  /** A free or own lockword is unlocked, names t, or is fat. */
  lemma FreeWord(s: State, t: Tid, o: Obj)
    requires WordOk(s, o) && FreeFor(s, t, o)
    ensures Lw(s, o) == UNLOCKED || OwnThin(Lw(s, o), t) || Lw(s, o).Fat?
  {
  }

  lemma ReadAdvances(s: State, t: Tid, s': State, o: Obj)
    requires Pc(s, t) == Enter(o, ERead) && Unhindered(s, t) && WordOk(s, o)
    requires s' == Goto(s, t, Enter(o, ECas(Lw(s, o))))
    ensures Advances(s, t, s')
  {
    FreeWord(s, t, o);
    assert Pc(s', t) == Enter(o, ECas(Lw(s, o)));
  }

  lemma CasAdvances(s: State, t: Tid, s': State, o: Obj, w: Word)
    requires Pc(s, t) == Enter(o, ECas(w)) && Unhindered(s, t) && WordOk(s, o) && Snapshot(s, t, o, w)
    requires s' == EnterNext(s, t, o, ECas(w))
    ensures Advances(s, t, s')
  {
    FreeWord(s, t, o);
    if Lw(s, o) != UNLOCKED {
      assert s' == Goto(s, t, AfterCas(t, o, w));
      assert Pc(s', t) == AfterCas(t, o, w);
    }
  }

  lemma EnterAdvances(s: State, t: Tid, s': State, o: Obj, e: EnterStage)
    requires Pc(s, t) == Enter(o, e) && Unhindered(s, t) && WordOk(s, o) && EnterOk(s, t, o, e)
    requires s' == EnterNext(s, t, o, e)
    ensures Advances(s, t, s')
  {
    match e
    case ERead => ReadAdvances(s, t, s', o);
    case ECas(w) => CasAdvances(s, t, s', o, w);
    case EIncRead => assert Pc(s', t) == Enter(o, EIncWrite(Lw(s, o)));
    case EIncWrite(_) => assert Pc(s', t) == Idle;
    case EOwner(r) => assert Pc(s', t) == Enter(o, if Owner(s, r) == t then EFatInc(r) else ELock(r));
    case EFatInc(_) => assert Pc(s', t) == Idle;
    case ELock(r) => assert Pc(s', t) == Enter(o, ESetOwner(r)) && MonitorOwner(s', o) == t;
    case ESetOwner(_) => assert Pc(s', t) == Idle;
  }

  /** Inside the flc_lock of i, which t is about to leave. */
  lemma LeavingAdvances(s: State, t: Tid, s': State, o: Obj, i: Tid, f: FlcStage)
    requires t != 0 && Pc(s, t) == Flc(o, i, f) && Unhindered(s, t) && i != t
    requires s' == FlcNext(s, t, o, i, f, false) && (f.FCheck? || f.FSleep? || f.FRestore? || f.FUnlock?)
    ensures Advances(s, t, s')
  {
    match f
    case FCheck => assert Pc(s', t) == Flc(o, i, FUnlock);
    case FSleep => assert Pc(s', t) == Flc(o, i, FCheck);
    case FRestore(prev) => assert Pc(s', t) == Flc(o, i, FUnlock);
    case FUnlock => assert Pc(s', t) == Enter(o, ERead);
  }

  lemma LookingAdvances(s: State, t: Tid, s': State, o: Obj, i: Tid, f: FlcStage)
    requires t != 0 && Pc(s, t) == Flc(o, i, f) && Unhindered(s, t) && i != t && i != 0
    requires s' == FlcNext(s, t, o, i, f, false) && (f.FLock? || f.FReadBit? || f.FSetBit? || f.FReread?)
    ensures Advances(s, t, s')
  {
    match f
    case FLock => assert Pc(s', t) == Flc(o, i, FReadBit);
    case FReadBit => assert Pc(s', t) == Flc(o, i, FSetBit(Bit(s, i)));
    case FSetBit(prev) => assert Pc(s', t) == Flc(o, i, FReread(prev));
    case FReread(prev) => assert Pc(s', t) == Flc(o, i, FRestore(prev));
  }

  lemma FlcAdvances(s: State, t: Tid, s': State, o: Obj, i: Tid, f: FlcStage, found: bool)
    requires t != 0 && Pc(s, t) == Flc(o, i, f) && Unhindered(s, t) && i != t && (!f.FLookup? ==> i != 0)
    requires s' == FlcNext(s, t, o, i, f, found)
    ensures Advances(s, t, s')
  {
    if f.FLookup? {
      assert Pc(s', t) == (if found then Flc(o, i, FLock) else Enter(o, ERead));
    } else if f.FLock? || f.FReadBit? || f.FSetBit? || f.FReread? {
      LookingAdvances(s, t, s', o, i, f);
    } else {
      LeavingAdvances(s, t, s', o, i, f);
    }
  }

  lemma InflateEndAdvances(s: State, t: Tid, s': State, o: Obj, why: Why, r: Rec)
    requires Pc(s, t) == Inflate(o, why, ISet(r)) && Unhindered(s, t)
    requires s' == Goto(SetLw(s, o, Fat(r)), t, AfterInflate(o, r, why))
    ensures Advances(s, t, s')
  {
    assert Pc(s', t) == AfterInflate(o, r, why);
  }

  lemma InflateAdvances(s: State, t: Tid, s': State, o: Obj, why: Why, st: InflateStage, nrec: Rec)
    requires Pc(s, t) == Inflate(o, why, st) && Unhindered(s, t) && Lw(s, o).Thin?
    requires s' == InflateNext(s, t, o, why, st, nrec)
    ensures Advances(s, t, s')
  {
    match st
    case IGetRead => InflateTo(s, t, s', o, why, IGetTable);
    case IGetTable => InflateTo(s, t, s', o, why, ILock(if o in s.recs.table then s.recs.table[o] else nrec));
    case ILock(r) => InflateTo(s, t, s', o, why, IOwner(r));
    case IOwner(r) => InflateTo(s, t, s', o, why, IRead(r));
    case IRead(r) => InflateTo(s, t, s', o, why, ICount(r, Lw(s, o).count));
    case ICount(r, c) => InflateTo(s, t, s', o, why, ISet(r));
    case ISet(r) => InflateEndAdvances(s, t, s', o, why, r);
  }

  lemma InflateTo(s: State, t: Tid, s': State, o: Obj, why: Why, st': InflateStage)
    requires Pc(s, t).Inflate? && Pc(s, t).o == o && Pc(s, t).why == why && Unhindered(s, t)
    requires s'.pc == s.pc[t := Inflate(o, why, st')] && s'.flc == s.flc
    requires P.InflateRank(st') < P.InflateRank(Pc(s, t).st)
    ensures Advances(s, t, s')
  {
  }

  lemma NotifyAdvances(s: State, t: Tid, s': State, o: Obj, ret: Ret, n: NotifyStage)
    requires Pc(s, t) == Notify(o, ret, n) && Unhindered(s, t) && NotifyOk(s, t, o, ret, n)
    requires s' == NotifyNext(s, t, o, ret, n)
    ensures Advances(s, t, s')
  {
    match n
    case NLock => assert Pc(s', t) == Notify(o, ret, NLoop(0));
    case NLoop(pos) =>
      assert Pc(s', t) == Notify(o, ret, if pos >= |List(s, t)| then NClear
                                         else if Fobj(s, List(s, t)[pos]) != Some(o) then NWord(pos) else NWake(pos));
    case NWord(pos) =>
      var cobj := Fobj(s, List(s, t)[pos]).value;
      assert Pc(s', t) == if Lw(s, cobj).Thin? then Inflate(cobj, InNotify(o, ret, pos), IGetRead)
                          else Notify(o, ret, NWake(pos));
    case NWake(pos) => assert Pc(s', t) == Notify(o, ret, NLoop(pos + 1));
    case NClear => assert Pc(s', t) == Notify(o, ret, NUnlock);
    case NUnlock => assert ret.RWait? ==> Pc(s', t) == Wait(o, WAdd(ret.rec));
  }

  lemma ExitRecordAdvances(s: State, t: Tid, s': State, o: Obj, x: ExitStage)
    requires Pc(s, t) == Exit(o, x) && (x.XOwner? || x.XCount? || x.XClear? || x.XUnlock?)
    requires s' == ExitNext(s, t, o, x)
    ensures Advances(s, t, s')
  {
    match x
    case XOwner(r) => assert Pc(s', t) == if Owner(s, r) != t then Idle else Exit(o, XCount(r));
    case XCount(r) => assert Pc(s', t) == if Count(s, r) != 0 then Idle else Exit(o, XClear(r));
    case XClear(r) => assert Pc(s', t) == Exit(o, XUnlock(r));
    case XUnlock(_) => assert Pc(s', t) == Idle;
  }

  lemma ExitReadAdvances(s: State, t: Tid, s': State, o: Obj)
    requires Pc(s, t) == Exit(o, XRead) && Unhindered(s, t) && s' == AfterExitRead(s, t, o)
    ensures Advances(s, t, s')
  {
    var w := Lw(s, o);
    assert Pc(s', t) == if w == Thin(t, 0) then Exit(o, XStore) else if OwnThin(w, t) then Exit(o, XDecRead)
                        else if w.Fat? then Exit(o, XOwner(w.rec)) else Idle;
  }

  lemma ExitAdvances(s: State, t: Tid, s': State, o: Obj, x: ExitStage)
    requires Pc(s, t) == Exit(o, x) && Unhindered(s, t) && ExitOk(s, t, o, x) && s' == ExitNext(s, t, o, x)
    ensures Advances(s, t, s')
  {
    match x
    case XRead => ExitReadAdvances(s, t, s', o);
    case XStore => assert Pc(s', t) == Exit(o, XBit);
    case XBit => assert Pc(s', t) == if Bit(s, t) then Notify(o, RExit, NLock) else Idle;
    case XDecRead => assert Pc(s', t) == Exit(o, XDecWrite(Lw(s, o)));
    case XDecWrite(_) => assert Pc(s', t) == Idle;
    case _ => ExitRecordAdvances(s, t, s', o, x);
  }

  lemma ReportAdvances(s: State, t: Tid, s': State, o: Obj, w: WaitStage)
    requires Pc(s, t) == Wait(o, w) && Reporting(Pc(s, t)) && s' == WaitNext(s, t, o, w)
    ensures Advances(s, t, s')
  {
    match w
    case WSignaled(r) => assert Pc(s', t) == Wait(o, if Signaled(s, t) then WReset(r, false) else WInterrupted(r));
    case WInterrupted(r) => assert Pc(s', t) == Wait(o, WClear(r, IsInterrupted(s, t)));
    case WClear(r, was) => assert Pc(s', t) == Wait(o, WReset(r, was));
    case WReset(_, _) => assert Pc(s', t) == Idle;
  }

  lemma WaitReadAdvances(s: State, t: Tid, s': State, o: Obj)
    requires Pc(s, t) == Wait(o, WRead) && Unhindered(s, t) && s' == AfterWaitRead(s, t, o)
    ensures Advances(s, t, s')
  {
    assert Pc(s', t) == if Lw(s, o).Fat? then Wait(o, WOwner(Lw(s, o).rec))
                        else if OwnThin(Lw(s, o), t) then Inflate(o, BeforeWait, IGetRead) else Idle;
  }

  lemma WaitAdvances(s: State, t: Tid, s': State, o: Obj, w: WaitStage)
    requires Pc(s, t) == Wait(o, w) && Unhindered(s, t) && s' == WaitNext(s, t, o, w)
    ensures Advances(s, t, s')
  {
    match w
    case WRead => WaitReadAdvances(s, t, s', o);
    case WOwner(r) => assert Pc(s', t) == if Owner(s, r) != t then Idle else Wait(o, WAdd(r));
    case WAdd(r) => assert Pc(s', t) == Wait(o, WSave(r));
    case WSave(r) => assert Pc(s', t) == Park(o, r, Count(s, r), PClear);
    case _ => ReportAdvances(s, t, s', o, w);
  }

  lemma ParkAdvances(s: State, t: Tid, s': State, o: Obj, r: Rec, saved: int, q: ParkStage)
    requires Pc(s, t) == Park(o, r, saved, q) && Unhindered(s, t) && Lw(s, o) == Fat(r)
    requires s' == ParkNext(s, t, o, r, saved, q)
    ensures Advances(s, t, s')
  {
    match q
    case PClear => assert Pc(s', t) == Park(o, r, saved, PUnlock);
    case PUnlock => assert Pc(s', t) == Park(o, r, saved, PSleep) && MonitorOwner(s', o) == 0;
    case PSleep => assert Pc(s', t) == Park(o, r, saved, PLock);
    case PLock => assert Pc(s', t) == Park(o, r, saved, POwner);
    case POwner => assert Pc(s', t) == Park(o, r, saved, PRemove);
    case PRemove => assert Pc(s', t) == Park(o, r, saved, PRestore);
    case PRestore => assert Pc(s', t) == Wait(o, WSignaled(r));
  }

  lemma LoopAdvances(s: State, t: Tid, s': State, o: Obj, one: bool, r: Rec, pos: int, before: seq<bool>)
    requires Pc(s, t) == Signal(o, one, SLoop(r, pos, before)) && s' == AfterSignalLoop(s, t, o, one, r, pos, before)
    ensures Advances(s, t, s')
  {
    assert Pc(s', t) == Idle || Pc(s', t) == Signal(o, one, SLoop(r, pos + 1, before));
    assert Waiters(s', r) == Waiters(s, r);
  }

  lemma SignalAdvances(s: State, t: Tid, s': State, o: Obj, one: bool, g: SignalStage)
    requires Pc(s, t) == Signal(o, one, g) && s' == SignalNext(s, t, o, one, g)
    ensures Advances(s, t, s')
  {
    match g
    case SRead => assert Pc(s', t) == if Lw(s, o).Fat? then Signal(o, one, SOwner(Lw(s, o).rec)) else Idle;
    case SOwner(r) => assert Owner(s, r) == t ==> Pc(s', t) == Signal(o, one, SLoop(r, 0, Flags(s, Waiters(s, r))));
    case SLoop(r, pos, before) => LoopAdvances(s, t, s', o, one, r, pos, before);
  }

  /** Every step that an unhindered thread takes in an operation ends it or brings it closer to its end. */
  lemma StepAdvances(s: State, t: Tid, s': State)
    requires Inv(s) && t != 0 && !Pc(s, t).Idle? && Unhindered(s, t) && OwnStep(s, t, s')
    ensures Advances(s, t, s')
  {
    assert ThreadOk(s, t);
    match Pc(s, t)
    case Enter(o, e) => EnterAdvances(s, t, s', o, e);
    case Flc(o, i, f) =>
      var found: bool :| FlcEnabled(s, i, f, found) && s' == FlcNext(s, t, o, i, f, found);
      FlcAdvances(s, t, s', o, i, f, found);
    case Inflate(o, why, st) =>
      var nrec: Rec :| s' == InflateNext(s, t, o, why, st, nrec);
      InflateAdvances(s, t, s', o, why, st, nrec);
    case Overflowed(o, r) => assert Pc(s', t) == Notify(o, ROverflow, NLock);
    case Notify(o, ret, n) => NotifyAdvances(s, t, s', o, ret, n);
    case Exit(o, x) => ExitAdvances(s, t, s', o, x);
    case Wait(o, w) => WaitAdvances(s, t, s', o, w);
    case Park(o, r, saved, q) => ParkAdvances(s, t, s', o, r, saved, q);
    case Signal(o, one, g) => SignalAdvances(s, t, s', o, one, g);
  }
}
