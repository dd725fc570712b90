/**
  The thin/fat monitor protocol as a transition system.

  Every shared read, write, compare-and-swap and mutex operation is one step, and the steps
  of all threads interleave freely.  A thread object is named by its index, so 0 plays the
  part of NULL.  Objects, threads and lock records are unbounded: an entry missing from one
  of the maps of the state stands for its initial value.
 */
module MonitorModel {

  type Tid = int
  type Obj = int
  type Rec = int

  datatype Option<+T> = None | Some(value: T)

  /** A lockword: thread index and recursion count, or a lock record. */
  datatype Word = Thin(tid: Tid, count: int) | Fat(rec: Rec)

  const UNLOCKED := Thin(0, 0)
  const THIN_LOCK_COUNT_MAX := 255

  /** How the last monitor operation of a thread ended. */
  datatype Outcome = Ok | IllegalMonitorState | Interrupted

  /** What notify_flc_waiters returns to. */
  datatype Ret = RExit | ROverflow | RWait(rec: Rec)

  /** Why a lock is inflated, which is also what happens next. */
  datatype Why = Overflow | BeforeWait | InNotify(rel: Obj, ret: Ret, pos: int)

  /** lock_monitor_enter */
  datatype EnterStage = ERead | ECas(w: Word) | EIncRead | EIncWrite(w: Word) | EOwner(r: Rec) | EFatInc(r: Rec)
    | ELock(r: Rec) | ESetOwner(r: Rec)

  /** sable_flc_waiting: contending with thread i */
  datatype FlcStage = FLookup | FLock | FReadBit | FSetBit(prev: bool) | FReread(prev: bool) | FEnqueue
    | FCheck | FSleep | FRestore(prev: bool) | FUnlock

  /** lock_hashtable_get, lock_record_enter, Lockword::inflate */
  datatype InflateStage = IGetRead | IGetTable | ILock(r: Rec) | IOwner(r: Rec) | IRead(r: Rec)
    | ICount(r: Rec, c: int) | ISet(r: Rec)

  /** notify_flc_waiters */
  datatype NotifyStage = NLock | NLoop(pos: int) | NWord(pos: int) | NWake(pos: int) | NClear | NUnlock

  /** lock_monitor_exit */
  datatype ExitStage = XRead | XStore | XBit | XDecRead | XDecWrite(w: Word) | XOwner(r: Rec) | XCount(r: Rec)
    | XClear(r: Rec) | XUnlock(r: Rec)

  /** lock_monitor_wait, and lock_record_wait while no count is put aside */
  datatype WaitStage = WRead | WOwner(r: Rec) | WAdd(r: Rec) | WSave(r: Rec)
    | WSignaled(r: Rec) | WInterrupted(r: Rec) | WClear(r: Rec, was: bool) | WReset(r: Rec, was: bool)

  /** lock_record_wait from the point where the count has been put aside */
  datatype ParkStage = PClear | PUnlock | PSleep | PLock | POwner | PRemove | PRestore

  /** lock_monitor_notify and lock_record_notify; `before` records the flags at loop entry */
  datatype SignalStage = SRead | SOwner(r: Rec) | SLoop(r: Rec, pos: int, before: seq<bool>)

  datatype PC =
    | Idle
    | Enter(o: Obj, e: EnterStage)
    | Flc(o: Obj, i: Tid, f: FlcStage)
    | Inflate(o: Obj, why: Why, st: InflateStage)
    | Overflowed(o: Obj, r: Rec)
    | Notify(o: Obj, ret: Ret, n: NotifyStage)
    | Exit(o: Obj, x: ExitStage)
    | Wait(o: Obj, w: WaitStage)
    | Park(o: Obj, r: Rec, saved: int, q: ParkStage)
    | Signal(o: Obj, one: bool, g: SignalStage)

  /** The lock hashtable and the lock records. */
  datatype Records = Records(
    table: map<Obj, Rec>,           // the lock hashtable
    robj: map<Rec, Obj>,            // lr->object of each allocated record
    owner: map<Rec, Tid>,           // lr->owner
    count: map<Rec, int>,           // lr->count
    mutex: map<Rec, Tid>,           // the thread inside lr->mutex
    waiters: map<Rec, seq<Tid>>)    // lr->waiters

  /** The fields of the thread objects that handle flat lock contention. */
  datatype FlcState = FlcState(
    bit: map<Tid, bool>,            // t->flc_bit
    list: map<Tid, seq<Tid>>,       // t->flc_list, linked by flc_next
    lock: map<Tid, Tid>,            // the thread inside t->flc_lock
    fobj: map<Tid, Option<Obj>>)    // t->flc_object

  /** Two history variables: completed operations, and the outcome of the last one. */
  datatype History = History(
    held: map<(Tid, Obj), int>,     // successful enters minus successful exits
    res: map<Tid, Outcome>)

  datatype State = State(
    lw: map<Obj, Word>,             // the lockword of each object
    recs: Records,
    flc: FlcState,
    pc: map<Tid, PC>,
    hist: History,
    signaled: map<Tid, bool>,
    interrupted: map<Tid, bool>)

  function Lw(s: State, o: Obj): Word { if o in s.lw then s.lw[o] else UNLOCKED }
  function Owner(s: State, r: Rec): Tid { if r in s.recs.owner then s.recs.owner[r] else 0 }
  function Count(s: State, r: Rec): int { if r in s.recs.count then s.recs.count[r] else 0 }
  function Mutex(s: State, r: Rec): Tid { if r in s.recs.mutex then s.recs.mutex[r] else 0 }
  function Waiters(s: State, r: Rec): seq<Tid> { if r in s.recs.waiters then s.recs.waiters[r] else [] }
  function Pc(s: State, t: Tid): PC { if t in s.pc then s.pc[t] else Idle }
  function Held(s: State, t: Tid, o: Obj): int { if (t, o) in s.hist.held then s.hist.held[(t, o)] else 0 }
  function Res(s: State, t: Tid): Outcome { if t in s.hist.res then s.hist.res[t] else Ok }
  function Bit(s: State, t: Tid): bool { t in s.flc.bit && s.flc.bit[t] }
  function List(s: State, t: Tid): seq<Tid> { if t in s.flc.list then s.flc.list[t] else [] }
  function Lock(s: State, t: Tid): Tid { if t in s.flc.lock then s.flc.lock[t] else 0 }
  function Fobj(s: State, t: Tid): Option<Obj> { if t in s.flc.fobj then s.flc.fobj[t] else None }
  function Signaled(s: State, t: Tid): bool { t in s.signaled && s.signaled[t] }
  function IsInterrupted(s: State, t: Tid): bool { t in s.interrupted && s.interrupted[t] }

  predicate OwnThin(w: Word, t: Tid) { w.Thin? && w.tid == t }

  function Incremented(w: Word): Word { if w.Thin? then Thin(w.tid, w.count + 1) else w }

  function Decremented(w: Word): Word { if w.Thin? && w.count > 0 then Thin(w.tid, w.count - 1) else w }

  const INIT := State(map[], Records(map[], map[], map[], map[], map[], map[]),
                      FlcState(map[], map[], map[], map[]), map[], History(map[], map[]), map[], map[])

  // ---------------------------------------------------------------- elementary updates

  function Goto(s: State, t: Tid, p: PC): State { s.(pc := s.pc[t := p]) }

  function SetLw(s: State, o: Obj, w: Word): State { s.(lw := s.lw[o := w]) }

  function SetOwner(s: State, r: Rec, t: Tid): State { s.(recs := s.recs.(owner := s.recs.owner[r := t])) }

  function SetCount(s: State, r: Rec, c: int): State { s.(recs := s.recs.(count := s.recs.count[r := c])) }

  function SetMutex(s: State, r: Rec, t: Tid): State { s.(recs := s.recs.(mutex := s.recs.mutex[r := t])) }

  function SetWaiters(s: State, r: Rec, ws: seq<Tid>): State {
    s.(recs := s.recs.(waiters := s.recs.waiters[r := ws]))
  }

  function SetBit(s: State, i: Tid, b: bool): State { s.(flc := s.flc.(bit := s.flc.bit[i := b])) }

  function SetList(s: State, i: Tid, l: seq<Tid>): State { s.(flc := s.flc.(list := s.flc.list[i := l])) }

  function SetLock(s: State, i: Tid, t: Tid): State { s.(flc := s.flc.(lock := s.flc.lock[i := t])) }

  function SetFobj(s: State, t: Tid, o: Option<Obj>): State { s.(flc := s.flc.(fobj := s.flc.fobj[t := o])) }

  function SetSignaled(s: State, t: Tid, b: bool): State { s.(signaled := s.signaled[t := b]) }

  function SetInterrupted(s: State, t: Tid, b: bool): State { s.(interrupted := s.interrupted[t := b]) }

  /** t returns from a monitor operation that leaves the history of o changed by d. */
  function Finish(s: State, t: Tid, res: Outcome, o: Obj, d: int): State {
    s.(pc := s.pc[t := Idle],
       hist := History(s.hist.held[(t, o) := Held(s, t, o) + d], s.hist.res[t := res]))
  }

  function Return(s: State, t: Tid, res: Outcome): State {
    s.(pc := s.pc[t := Idle], hist := s.hist.(res := s.hist.res[t := res]))
  }

  // ---------------------------------------------------------------- lock_monitor_enter

  /** The branch taken on the cached lockword once the compare-and-swap has failed. */
  function AfterCas(t: Tid, o: Obj, w: Word): PC {
    if OwnThin(w, t) then
      if w.count < THIN_LOCK_COUNT_MAX then Enter(o, EIncRead) else Inflate(o, Overflow, IGetRead)
    else if w.Fat? then Enter(o, EOwner(w.rec))
    else Flc(o, w.tid, FLookup)
  }

  function Entered(s: State, t: Tid, o: Obj): State { Finish(s, t, Ok, o, 1) }

  function EnterNext(s: State, t: Tid, o: Obj, e: EnterStage): State {
    match e
    case ERead => Goto(s, t, Enter(o, ECas(Lw(s, o))))
    case ECas(w) =>
      if Lw(s, o) == UNLOCKED then Entered(SetLw(s, o, Thin(t, 0)), t, o)
      else Goto(s, t, AfterCas(t, o, w))
    case EIncRead => Goto(s, t, Enter(o, EIncWrite(Lw(s, o))))
    case EIncWrite(w) => Entered(SetLw(s, o, Incremented(w)), t, o)
    case EOwner(r) => Goto(s, t, Enter(o, if Owner(s, r) == t then EFatInc(r) else ELock(r)))
    case EFatInc(r) => Entered(SetCount(s, r, Count(s, r) + 1), t, o)
    case ELock(r) => Goto(SetMutex(s, r, t), t, Enter(o, ESetOwner(r)))
    case ESetOwner(r) => Entered(SetOwner(s, r, t), t, o)
  }

  /** A mutex is entered only while it is free; no other step blocks. */
  predicate EnterEnabled(s: State, e: EnterStage) { e.ELock? ==> Mutex(s, e.r) == 0 }

  ghost predicate EnterStep(s: State, t: Tid, s': State) {
    Pc(s, t).Enter? && EnterEnabled(s, Pc(s, t).e) && s' == EnterNext(s, t, Pc(s, t).o, Pc(s, t).e)
  }

  // ---------------------------------------------------------------- sable_flc_waiting

  /** `found` is the answer of get_thread_by_index, which is NULL for a thread that is not active. */
  function FlcNext(s: State, t: Tid, o: Obj, i: Tid, f: FlcStage, found: bool): State {
    match f
    case FLookup => Goto(s, t, if found then Flc(o, i, FLock) else Enter(o, ERead))
    case FLock => Goto(SetLock(s, i, t), t, Flc(o, i, FReadBit))
    case FReadBit => Goto(s, t, Flc(o, i, FSetBit(Bit(s, i))))
    case FSetBit(prev) => Goto(SetBit(s, i, true), t, Flc(o, i, FReread(prev)))
    case FReread(prev) => Goto(s, t, Flc(o, i, if OwnThin(Lw(s, o), i) then FEnqueue else FRestore(prev)))
    case FEnqueue =>
      Goto(SetFobj(SetList(s, i, [t] + List(s, i)), t, Some(o)), t, Flc(o, i, FCheck))
    case FCheck =>
      if Fobj(s, t) == None then Goto(s, t, Flc(o, i, FUnlock))
      else Goto(SetLock(s, i, 0), t, Flc(o, i, FSleep))
    case FSleep => Goto(SetLock(s, i, t), t, Flc(o, i, FCheck))
    case FRestore(prev) => Goto(SetBit(s, i, prev), t, Flc(o, i, FUnlock))
    case FUnlock => Goto(SetLock(s, i, 0), t, Enter(o, ERead))
  }

  /** A condition wait may return at any time, but only with the mutex. */
  predicate FlcEnabled(s: State, i: Tid, f: FlcStage, found: bool) {
    (f.FLock? || f.FSleep? ==> Lock(s, i) == 0) && (found ==> i != 0)
  }

  ghost predicate FlcStep(s: State, t: Tid, s': State) {
    && Pc(s, t).Flc?
    && exists found: bool ::
         && FlcEnabled(s, Pc(s, t).i, Pc(s, t).f, found)
         && s' == FlcNext(s, t, Pc(s, t).o, Pc(s, t).i, Pc(s, t).f, found)
  }

  // ---------------------------------------------------------------- inflation

  function AfterInflate(o: Obj, r: Rec, why: Why): PC {
    match why
    case Overflow => Overflowed(o, r)
    case BeforeWait => Notify(o, RWait(r), NLock)
    case InNotify(rel, ret, pos) => Notify(rel, ret, NWake(pos))
  }

  function NewRecord(s: State, o: Obj, r: Rec): State {
    s.(recs := Records(s.recs.table[o := r], s.recs.robj[r := o], s.recs.owner[r := 0],
                       s.recs.count[r := 0], s.recs.mutex[r := 0], s.recs.waiters[r := []]))
  }

  /** `nrec` is the record allocated when the table has none for o. */
  function InflateNext(s: State, t: Tid, o: Obj, why: Why, st: InflateStage, nrec: Rec): State {
    match st
    case IGetRead => Goto(s, t, Inflate(o, why, if Lw(s, o).Fat? then ILock(Lw(s, o).rec) else IGetTable))
    case IGetTable =>
      if o in s.recs.table then Goto(s, t, Inflate(o, why, ILock(s.recs.table[o])))
      else Goto(NewRecord(s, o, nrec), t, Inflate(o, why, ILock(nrec)))
    case ILock(r) => Goto(SetMutex(s, r, t), t, Inflate(o, why, IOwner(r)))
    case IOwner(r) => Goto(SetOwner(s, r, t), t, Inflate(o, why, IRead(r)))
    case IRead(r) =>
      Goto(s, t, if Lw(s, o).Fat? then AfterInflate(o, r, why) else Inflate(o, why, ICount(r, Lw(s, o).count)))
    case ICount(r, c) => Goto(SetCount(s, r, c), t, Inflate(o, why, ISet(r)))
    case ISet(r) => Goto(SetLw(s, o, Fat(r)), t, AfterInflate(o, r, why))
  }

  predicate InflateEnabled(s: State, st: InflateStage, nrec: Rec) {
    (st.ILock? ==> Mutex(s, st.r) == 0) && nrec !in s.recs.robj
  }

  ghost predicate InflateStep(s: State, t: Tid, s': State) {
    && Pc(s, t).Inflate?
    && exists nrec: Rec ::
         && InflateEnabled(s, Pc(s, t).st, nrec)
         && s' == InflateNext(s, t, Pc(s, t).o, Pc(s, t).why, Pc(s, t).st, nrec)
  }

  ghost predicate OverflowStep(s: State, t: Tid, s': State) {
    && Pc(s, t).Overflowed?
    && var Overflowed(o, r) := Pc(s, t);
       s' == Goto(SetCount(s, r, Count(s, r) + 1), t, Notify(o, ROverflow, NLock))
  }

  // ---------------------------------------------------------------- notify_flc_waiters

  function AfterNotify(s: State, t: Tid, o: Obj, ret: Ret): State {
    match ret
    case RExit => Exited(s, t, o)
    case ROverflow => Entered(s, t, o)
    case RWait(r) => Goto(s, t, Wait(o, WAdd(r)))
  }

  function NotifyNext(s: State, t: Tid, o: Obj, ret: Ret, n: NotifyStage): State {
    match n
    case NLock => Goto(SetLock(s, t, t), t, Notify(o, ret, NLoop(0)))
    case NLoop(pos) =>
      Goto(s, t, Notify(o, ret,
        if pos < 0 || pos >= |List(s, t)| then NClear
        else if Fobj(s, List(s, t)[pos]) != Some(o) then NWord(pos)
        else NWake(pos)))
    case NWord(pos) =>
      if 0 <= pos < |List(s, t)| && Fobj(s, List(s, t)[pos]).Some? then
        var cobj := Fobj(s, List(s, t)[pos]).value;
        Goto(s, t, if Lw(s, cobj).Thin? then Inflate(cobj, InNotify(o, ret, pos), IGetRead)
                   else Notify(o, ret, NWake(pos)))
      else s
    case NWake(pos) =>
      if 0 <= pos < |List(s, t)| then
        Goto(SetFobj(s, List(s, t)[pos], None), t, Notify(o, ret, NLoop(pos + 1)))
      else s
    case NClear => Goto(SetBit(SetList(s, t, []), t, false), t, Notify(o, ret, NUnlock))
    case NUnlock => AfterNotify(SetLock(s, t, 0), t, o, ret)
  }

  predicate NotifyEnabled(s: State, t: Tid, n: NotifyStage) { n.NLock? ==> Lock(s, t) == 0 }

  ghost predicate NotifyFlcStep(s: State, t: Tid, s': State) {
    && Pc(s, t).Notify?
    && NotifyEnabled(s, t, Pc(s, t).n)
    && s' == NotifyNext(s, t, Pc(s, t).o, Pc(s, t).ret, Pc(s, t).n)
  }

  // ---------------------------------------------------------------- lock_monitor_exit

  function Exited(s: State, t: Tid, o: Obj): State { Finish(s, t, Ok, o, -1) }

  function AfterExitRead(s: State, t: Tid, o: Obj): State {
    var w := Lw(s, o);
    if w == Thin(t, 0) then Goto(s, t, Exit(o, XStore))
    else if OwnThin(w, t) then Goto(s, t, Exit(o, XDecRead))
    else if w.Fat? then Goto(s, t, Exit(o, XOwner(w.rec)))
    else Return(s, t, IllegalMonitorState)
  }

  function ExitNext(s: State, t: Tid, o: Obj, x: ExitStage): State {
    match x
    case XRead => AfterExitRead(s, t, o)
    case XStore => Goto(SetLw(s, o, UNLOCKED), t, Exit(o, XBit))
    case XBit => if Bit(s, t) then Goto(s, t, Notify(o, RExit, NLock)) else Exited(s, t, o)
    case XDecRead => Goto(s, t, Exit(o, XDecWrite(Lw(s, o))))
    case XDecWrite(w) => Exited(SetLw(s, o, Decremented(w)), t, o)
    case XOwner(r) => if Owner(s, r) != t then Return(s, t, IllegalMonitorState) else Goto(s, t, Exit(o, XCount(r)))
    case XCount(r) =>
      if Count(s, r) != 0 then Exited(SetCount(s, r, Count(s, r) - 1), t, o)
      else Goto(s, t, Exit(o, XClear(r)))
    case XClear(r) => Goto(SetOwner(s, r, 0), t, Exit(o, XUnlock(r)))
    case XUnlock(r) => Exited(SetMutex(s, r, 0), t, o)
  }

  ghost predicate ExitStep(s: State, t: Tid, s': State) {
    Pc(s, t).Exit? && s' == ExitNext(s, t, Pc(s, t).o, Pc(s, t).x)
  }

  // ---------------------------------------------------------------- wait and notify

  ghost predicate Distinct(ws: seq<Tid>) {
    forall i, j :: 0 <= i < j < |ws| ==> ws[i] != ws[j]
  }

  function Without(ws: seq<Tid>, t: Tid): (r: seq<Tid>)
    ensures forall w :: w in r <==> w in ws && w != t
  {
    if ws == [] then []
    else if ws[0] == t then Without(ws[1..], t)
    else [ws[0]] + Without(ws[1..], t)
  }

  lemma {:induction false} WithoutNone(ws: seq<Tid>, t: Tid)
    requires t !in ws
    ensures Without(ws, t) == ws
  {
    if ws == [] {
    } else {
      WithoutNone(ws[1..], t);
    }
  }

  /** Only t is taken out; the others keep their order. */
  lemma {:induction false} WithoutCuts(ws: seq<Tid>, t: Tid, k: nat)
    requires Distinct(ws) && k < |ws| && ws[k] == t
    ensures Without(ws, t) == ws[..k] + ws[k + 1..]
  {
    if k == 0 {
      WithoutNone(ws[1..], t);
    } else {
      WithoutCuts(ws[1..], t, k - 1);
      assert ws[1..][..k - 1] == ws[1..k] && ws[1..][k..] == ws[k + 1..];
      assert [ws[0]] + ws[1..k] == ws[..k];
    }
  }

  function AfterWaitRead(s: State, t: Tid, o: Obj): State {
    var w := Lw(s, o);
    if w.Fat? then Goto(s, t, Wait(o, WOwner(w.rec)))
    else if !OwnThin(w, t) then Return(s, t, IllegalMonitorState)
    else Goto(s, t, Inflate(o, BeforeWait, IGetRead))
  }

  function WaitNext(s: State, t: Tid, o: Obj, w: WaitStage): State {
    match w
    case WRead => AfterWaitRead(s, t, o)
    case WOwner(r) => if Owner(s, r) != t then Return(s, t, IllegalMonitorState) else Goto(s, t, Wait(o, WAdd(r)))
    case WAdd(r) => Goto(SetWaiters(s, r, Waiters(s, r) + [t]), t, Wait(o, WSave(r)))
    case WSave(r) => Goto(SetCount(s, r, 0), t, Park(o, r, Count(s, r), PClear))
    // a thread that was not signaled reads and clears its interrupted flag, in two accesses
    case WSignaled(r) => Goto(s, t, Wait(o, if Signaled(s, t) then WReset(r, false) else WInterrupted(r)))
    case WInterrupted(r) => Goto(s, t, Wait(o, WClear(r, IsInterrupted(s, t))))
    case WClear(r, was) => Goto(SetInterrupted(s, t, false), t, Wait(o, WReset(r, was)))
    case WReset(r, was) => Return(SetSignaled(s, t, false), t, if was then Interrupted else Ok)
  }

  ghost predicate WaitStep(s: State, t: Tid, s': State) {
    Pc(s, t).Wait? && s' == WaitNext(s, t, Pc(s, t).o, Pc(s, t).w)
  }

  function ParkNext(s: State, t: Tid, o: Obj, r: Rec, saved: int, q: ParkStage): State {
    match q
    case PClear => Goto(SetOwner(s, r, 0), t, Park(o, r, saved, PUnlock))
    case PUnlock => Goto(SetMutex(s, r, 0), t, Park(o, r, saved, PSleep))
    // notified, interrupted, timed out, or woken for no reason
    case PSleep => Goto(s, t, Park(o, r, saved, PLock))
    case PLock => Goto(SetMutex(s, r, t), t, Park(o, r, saved, POwner))
    case POwner => Goto(SetOwner(s, r, t), t, Park(o, r, saved, PRemove))
    case PRemove =>
      Goto(SetWaiters(s, r, Without(Waiters(s, r), t)), t, Park(o, r, saved, PRestore))
    case PRestore => Goto(SetCount(s, r, saved), t, Wait(o, WSignaled(r)))
  }

  predicate ParkEnabled(s: State, r: Rec, q: ParkStage) { q.PLock? ==> Mutex(s, r) == 0 }

  ghost predicate ParkStep(s: State, t: Tid, s': State) {
    && Pc(s, t).Park?
    && ParkEnabled(s, Pc(s, t).r, Pc(s, t).q)
    && s' == ParkNext(s, t, Pc(s, t).o, Pc(s, t).r, Pc(s, t).saved, Pc(s, t).q)
  }

  function Flags(s: State, ws: seq<Tid>): (f: seq<bool>)
    ensures |f| == |ws| && forall j :: 0 <= j < |ws| ==> f[j] == Signaled(s, ws[j])
  {
    seq(|ws|, j requires 0 <= j < |ws| => Signaled(s, ws[j]))
  }

  function AfterSignalRead(s: State, t: Tid, o: Obj, one: bool): State {
    var w := Lw(s, o);
    if w.Fat? then Goto(s, t, Signal(o, one, SOwner(w.rec)))
    else Return(s, t, if OwnThin(w, t) then Ok else IllegalMonitorState)
  }

  function AfterSignalLoop(s: State, t: Tid, o: Obj, one: bool, r: Rec, pos: int, before: seq<bool>): State {
    var ws := Waiters(s, r);
    if pos < 0 || pos >= |ws| then Return(s, t, Ok)
    else if Signaled(s, ws[pos]) then Goto(s, t, Signal(o, one, SLoop(r, pos + 1, before)))
    else
      var s1 := SetSignaled(s, ws[pos], true);
      if one then Return(s1, t, Ok) else Goto(s1, t, Signal(o, one, SLoop(r, pos + 1, before)))
  }

  function SignalNext(s: State, t: Tid, o: Obj, one: bool, g: SignalStage): State {
    match g
    case SRead => AfterSignalRead(s, t, o, one)
    case SOwner(r) =>
      if Owner(s, r) != t then Return(s, t, IllegalMonitorState)
      else Goto(s, t, Signal(o, one, SLoop(r, 0, Flags(s, Waiters(s, r)))))
    case SLoop(r, pos, before) => AfterSignalLoop(s, t, o, one, r, pos, before)
  }

  ghost predicate SignalStep(s: State, t: Tid, s': State) {
    Pc(s, t).Signal? && s' == SignalNext(s, t, Pc(s, t).o, Pc(s, t).one, Pc(s, t).g)
  }

  // ---------------------------------------------------------------- starting and recycling

  /** An idle thread calls a monitor operation on some object. */
  ghost predicate BeginStep(s: State, t: Tid, s': State) {
    && Pc(s, t) == Idle
    && exists p: PC :: IsCall(p) && s' == Goto(s, t, p)
  }

  predicate IsCall(p: PC) {
    match p
    case Enter(_, e) => e.ERead?
    case Exit(_, x) => x.XRead?
    case Wait(_, w) => w.WRead?
    case Signal(_, _, g) => g.SRead?
    case _ => false
  }

  /** A thread is interrupted, or clears its own interrupted flag between operations. */
  ghost predicate InterruptStep(s: State, t: Tid, s': State) {
    exists b: bool :: (b || Pc(s, t) == Idle) && s' == SetInterrupted(s, t, b)
  }

  /**
    thread_new on an object taken from the free list.  Of its stores only the one to the FLC
    bit changes anything that another thread can still see.
   */
  function Recycled(s: State, t: Tid): State {
    SetInterrupted(SetSignaled(SetFobj(SetList(SetBit(s, t, false), t, []), t, None), t, false), t, false)
  }

  ghost predicate Finished(s: State, t: Tid) {
    Pc(s, t) == Idle && forall o: Obj :: Held(s, t, o) == 0
  }

  /** The object of a finished thread is reused, whether or not a contender is inside its flc_lock. */
  ghost predicate RecycleStep(s: State, t: Tid, s': State) { Finished(s, t) && s' == Recycled(s, t) }

  /** A step of a thread within or into a monitor operation. */
  ghost predicate OwnStep(s: State, t: Tid, s': State) {
    || BeginStep(s, t, s')
    || EnterStep(s, t, s')
    || FlcStep(s, t, s')
    || InflateStep(s, t, s')
    || OverflowStep(s, t, s')
    || NotifyFlcStep(s, t, s')
    || ExitStep(s, t, s')
    || WaitStep(s, t, s')
    || ParkStep(s, t, s')
    || SignalStep(s, t, s')
  }

  ghost predicate Step(s: State, t: Tid, s': State) {
    && t != 0
    && (OwnStep(s, t, s') || InterruptStep(s, t, s') || RecycleStep(s, t, s'))
  }

  /** actor[i] takes the step from run[i]. */
  ghost predicate StepAt(run: seq<State>, actor: seq<Tid>, i: int)
    requires |run| == |actor| + 1 && 0 <= i < |actor|
  {
    Step(run[i], actor[i], run[i + 1])
  }

  /** A piece of a run. */
  ghost predicate IsPath(run: seq<State>, actor: seq<Tid>) {
    |run| == |actor| + 1 && forall i :: 0 <= i < |actor| ==> StepAt(run, actor, i)
  }

  /** Finite prefixes of runs: paths from the initial state. */
  ghost predicate IsRun(run: seq<State>, actor: seq<Tid>) { IsPath(run, actor) && run[0] == INIT }

  // ---------------------------------------------------------------- the assertion in sable_flc_waiting

  /** lock.cpp line 703: a contender that is still queued finds the FLC bit of the owner set. */
  predicate Marked(s: State, w: Tid) {
    Pc(s, w).Flc? && Pc(s, w).f.FCheck? && Fobj(s, w) != None ==> Bit(s, Pc(s, w).i)
  }

  ghost predicate AllMarked(s: State) { forall w: Tid :: w != 0 ==> Marked(s, w) }

  /** The assertion has not failed up to run[k]. */
  ghost predicate Upheld(run: seq<State>, k: nat)
    requires k < |run|
  {
    forall j :: 0 <= j <= k ==> AllMarked(run[j])
  }
}
