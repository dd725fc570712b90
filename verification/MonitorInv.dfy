/**
  The inductive invariant of the monitor protocol.

  It has a part for every lockword, lock record, FLC list and thread.  What a thread may rely
  on at its program counter is `ThreadOk`; what a step of a thread may do to the shared state
  is `Guar`.  `Stable` shows that no step of one thread disturbs `ThreadOk` of another.
 */
module MonitorInv {
  import opened MonitorModel

  // ---------------------------------------------------------------- views of the program counter

  /** Inside notify_flc_waiters with the own flc_lock held. */
  predicate InLoop(p: PC) {
    (p.Notify? && !p.n.NLock?) || (p.Inflate? && p.why.InNotify?)
  }

  /** The thread whose flc_lock a thread t at p is inside, or 0. */
  function FlcHeld(p: PC, t: Tid): Tid {
    if p.Flc? then (if p.f.FLookup? || p.f.FLock? || p.f.FSleep? then 0 else p.i)
    else if InLoop(p) then t
    else 0
  }

  /** The object whose release or inflation obliges the thread to finish notify_flc_waiters. */
  function NotifyObj(p: PC): Option<Obj> {
    match p
    case Notify(o, _, _) => Some(o)
    case Inflate(_, why, _) => if why.InNotify? then Some(why.rel) else None
    case Exit(o, x) => if x.XBit? then Some(o) else None
    case Overflowed(o, _) => Some(o)
    case _ => None
  }

  /** How many entries of its FLC list, of length n, a thread at p has already woken. */
  function Done(p: PC, n: int): int {
    match p
    case Notify(_, _, st) =>
      (match st
       case NLoop(pos) => pos
       case NWord(pos) => pos
       case NWake(pos) => pos
       case NClear => n
       case _ => 0)
    case Inflate(_, why, _) => if why.InNotify? then why.pos else 0
    case _ => 0
  }

  /** The record on whose wait list a thread at p is registered. */
  function WaitingOn(p: PC): Option<Rec> {
    match p
    case Wait(_, w) => if w.WSave? then Some(w.r) else None
    case Park(_, r, _, q) => if q.PRestore? then None else Some(r)
    case _ => None
  }

  /** The end of a wait, where the signaled and interrupted flags are looked at and cleared. */
  predicate Reporting(p: PC) {
    p.Wait? && (p.w.WSignaled? || p.w.WInterrupted? || p.w.WClear? || p.w.WReset?)
  }

  /** Where a thread may find itself signaled. */
  predicate MayBeSignaled(p: PC) {
    (p.Park? && !p.q.PClear? && !p.q.PUnlock?) || (p.Wait? && (p.w.WSignaled? || p.w.WReset?))
  }

  /** A thread at p is inside the mutex of r without being recorded as its owner. */
  predicate OwnerGap(p: PC, r: Rec) {
    match p
    case Enter(_, e) => e == ESetOwner(r)
    case Inflate(_, _, st) => st == IOwner(r)
    case Exit(_, x) => x == XUnlock(r)
    case Park(_, r', _, q) => r' == r && (q.PUnlock? || q.POwner?)
    case _ => false
  }

  /** A thread at p has entered the record r in order to inflate the lock of o. */
  predicate MidInflation(p: PC, o: Obj, r: Rec) {
    && p.Inflate? && p.o == o
    && (p.st.IOwner? || p.st.IRead? || p.st.ICount? || p.st.ISet?)
    && p.st.r == r
  }

  // ---------------------------------------------------------------- the monitor of an object

  /** The thread that owns the monitor of o, or 0. */
  function MonitorOwner(s: State, o: Obj): Tid {
    match Lw(s, o)
    case Thin(i, _) => i
    case Fat(r) => Mutex(s, r)
  }

  /** How often the owner t has entered the monitor of o; 0 for every other thread. */
  function Depth(s: State, t: Tid, o: Obj): int {
    match Lw(s, o)
    case Thin(i, c) => if i == t then c + 1 else 0
    case Fat(r) =>
      if Mutex(s, r) != t then 0
      else if Pc(s, t).Park? && Pc(s, t).r == r then Pc(s, t).saved + 1
      else Count(s, r) + 1
  }

  /** The depth that t's history of completed operations and its current position call for. */
  function Expected(p: PC, held: int, o: Obj): int {
    match p
    case Enter(o', e) => if e.ESetOwner? && o' == o then held + 1 else held
    case Exit(o', x) => if x.XBit? && o' == o then held - 1 else held
    case Park(o', _, _, q) => if (q.PSleep? || q.PLock?) && o' == o then 0 else held
    case Notify(rel, ret, _) => if rel == o then held + RetAdjust(ret) else held
    case Inflate(_, why, _) => if why.InNotify? && why.rel == o then held + RetAdjust(why.ret) else held
    case _ => held
  }

  function RetAdjust(ret: Ret): int {
    match ret
    case RExit => -1
    case ROverflow => 1
    case RWait(_) => 0
  }

  datatype Kind = EnterOp | ExitOp | WaitOp | NotifyOp

  function RetKind(ret: Ret): Kind {
    match ret
    case RExit => ExitOp
    case ROverflow => EnterOp
    case RWait(_) => WaitOp
  }

  /** The operation a thread is executing, and its object. */
  function Operation(p: PC): (Kind, Obj)
    requires !p.Idle?
  {
    match p
    case Enter(o, _) => (EnterOp, o)
    case Flc(o, _, _) => (EnterOp, o)
    case Overflowed(o, _) => (EnterOp, o)
    case Exit(o, _) => (ExitOp, o)
    case Wait(o, _) => (WaitOp, o)
    case Park(o, _, _, _) => (WaitOp, o)
    case Signal(o, _, _) => (NotifyOp, o)
    case Notify(o, ret, _) => (RetKind(ret), o)
    case Inflate(o, why, _) =>
      match why
      case Overflow => (EnterOp, o)
      case BeforeWait => (WaitOp, o)
      case InNotify(rel, ret, _) => (RetKind(ret), rel)
  }

  /** The depth of t in o, read off its history and its program counter. */
  function HistoryDepth(s: State, t: Tid, o: Obj): int { Expected(Pc(s, t), Held(s, t, o), o) }

  /** A step of t changes its depth in o only by its operation on o. */
  ghost predicate DepthStep(s: State, t: Tid, s': State, o: Obj) {
    var h, h' := HistoryDepth(s, t, o), HistoryDepth(s', t, o);
    || h' == h
    || (&& !Pc(s, t).Idle? && Operation(Pc(s, t)).1 == o
        && match Operation(Pc(s, t)).0
           case EnterOp => h' == h + 1
           case ExitOp => h' == h - 1
           case WaitOp => Pc(s, t).Park? && ((h, h') == (0, Pc(s, t).saved + 1) || (h, h') == (Pc(s, t).saved + 1, 0))
           case NotifyOp => false)
  }

  // ---------------------------------------------------------------- parts of the invariant

  ghost predicate WordOk(s: State, o: Obj) {
    match Lw(s, o)
    case Thin(i, c) => 0 <= c <= THIN_LOCK_COUNT_MAX && (i == 0 ==> c == 0)
    case Fat(r) => o in s.recs.table && s.recs.table[o] == r
  }

  ghost predicate TableOk(s: State, o: Obj) {
    o in s.recs.table ==> s.recs.table[o] in s.recs.robj && s.recs.robj[s.recs.table[o]] == o
  }

  ghost predicate RecOk(s: State, r: Rec) {
    if r !in s.recs.robj then
      Mutex(s, r) == 0 && Owner(s, r) == 0
    else
      var o := s.recs.robj[r];
      && o in s.recs.table && s.recs.table[o] == r
      && (Owner(s, r) != 0 ==> Mutex(s, r) == Owner(s, r))
      && Count(s, r) >= 0 && (Mutex(s, r) == 0 ==> Count(s, r) == 0)
      && (Mutex(s, r) != 0 && Owner(s, r) == 0 ==> OwnerGap(Pc(s, Mutex(s, r)), r))
      && (Mutex(s, r) != 0 && Lw(s, o).Thin? ==>
            OwnThin(Lw(s, o), Mutex(s, r)) && MidInflation(Pc(s, Mutex(s, r)), o, r))
  }

  ghost predicate WaitOk(s: State, r: Rec) {
    && Distinct(Waiters(s, r))
    && (Waiters(s, r) != [] ==> r in s.recs.robj && Lw(s, s.recs.robj[r]) == Fat(r))
    && forall w :: w in Waiters(s, r) ==> w != 0 && WaitingOn(Pc(s, w)) == Some(r)
  }

  /** i still owns o, or has to run notify_flc_waiters before it does anything else. */
  ghost predicate Pending(s: State, o: Obj, i: Tid) {
    || OwnThin(Lw(s, o), i)
    || NotifyObj(Pc(s, i)) == Some(o)
    || (InLoop(Pc(s, i)) && Lw(s, o).Fat?)
  }

  predicate Queued(p: PC, i: Tid) {
    p.Flc? && p.i == i && (p.f.FCheck? || p.f.FSleep?)
  }

  /** Entry j of the FLC list of i. */
  ghost predicate EntryOk(s: State, i: Tid, j: int)
    requires 0 <= j < |List(s, i)|
  {
    var w := List(s, i)[j];
    && w != 0 && w != i
    && Queued(Pc(s, w), i)
    && (if j < Done(Pc(s, i), |List(s, i)|) then Fobj(s, w) == None
        else Fobj(s, w) == Some(Pc(s, w).o) && Pending(s, Pc(s, w).o, i))
  }

  ghost predicate FlcOk(s: State, i: Tid) {
    && Distinct(List(s, i))
    && (List(s, i) != [] ==> Bit(s, i))
    && (Lock(s, i) != 0 ==> FlcHeld(Pc(s, Lock(s, i)), Lock(s, i)) == i)
    && (InLoop(Pc(s, i)) ==> Lock(s, i) == i)
    && forall j :: 0 <= j < |List(s, i)| ==> EntryOk(s, i, j)
  }

  lemma ListMember(s: State, i: Tid, w: Tid)
    requires FlcOk(s, i) && w in List(s, i)
    ensures w != 0 && w != i && Queued(Pc(s, w), i)
    ensures !InLoop(Pc(s, i)) ==> Fobj(s, w) == Some(Pc(s, w).o) && Pending(s, Pc(s, w).o, i)
  {
    var j :| 0 <= j < |List(s, i)| && List(s, i)[j] == w;
    assert EntryOk(s, i, j);
  }

  ghost predicate BalanceOk(s: State, t: Tid, o: Obj) {
    Depth(s, t, o) == Expected(Pc(s, t), Held(s, t, o), o)
  }

  // ---------------------------------------------------------------- what a thread relies on

  ghost predicate OwnsRec(s: State, t: Tid, o: Obj, r: Rec) {
    Lw(s, o) == Fat(r) && Mutex(s, r) == t && Owner(s, r) == t
  }

  /** The cached lockword w can only be out of date if neither it nor the lockword names t. */
  ghost predicate Snapshot(s: State, t: Tid, o: Obj, w: Word) {
    && (w.Fat? || OwnThin(w, t) || OwnThin(Lw(s, o), t) ==> w == Lw(s, o))
    && (w.Thin? ==> 0 <= w.count <= THIN_LOCK_COUNT_MAX)
  }

  ghost predicate EnterOk(s: State, t: Tid, o: Obj, e: EnterStage) {
    match e
    case ERead => true
    case ECas(w) => Snapshot(s, t, o, w)
    case EIncRead => OwnThin(Lw(s, o), t) && Lw(s, o).count < THIN_LOCK_COUNT_MAX
    case EIncWrite(w) => OwnThin(w, t) && w.count < THIN_LOCK_COUNT_MAX && Lw(s, o) == w
    case EOwner(r) => Lw(s, o) == Fat(r)
    case EFatInc(r) => OwnsRec(s, t, o, r)
    case ELock(r) => Lw(s, o) == Fat(r) && Mutex(s, r) != t
    case ESetOwner(r) => Lw(s, o) == Fat(r) && Mutex(s, r) == t && Owner(s, r) == 0 && Count(s, r) == 0
  }

  ghost predicate FlcStageOk(s: State, t: Tid, o: Obj, i: Tid, f: FlcStage) {
    && i != t && (!f.FLookup? ==> i != 0)
    && match f
       case FSetBit(prev) => List(s, i) != [] ==> prev
       case FReread(prev) => List(s, i) != [] ==> prev
       case FEnqueue => Bit(s, i) ==> Pending(s, o, i)
       case FCheck => Fobj(s, t) == None || (Fobj(s, t) == Some(o) && t in List(s, i))
       case FSleep => Fobj(s, t) == None || (Fobj(s, t) == Some(o) && t in List(s, i))
       case FRestore(prev) => List(s, i) != [] ==> prev
       case _ => true
  }

  ghost predicate NotifyCtx(s: State, t: Tid, o: Obj, ret: Ret) {
    ret.RWait? ==> OwnsRec(s, t, o, ret.rec)
  }

  /** Why an inflation of o by t is under way. */
  ghost predicate WhyOk(s: State, t: Tid, o: Obj, why: Why) {
    && (why.Overflow? ==> Lw(s, o) == Thin(t, THIN_LOCK_COUNT_MAX))
    && (why.InNotify? ==>
          && NotifyCtx(s, t, why.rel, why.ret)
          && why.rel != o
          && 0 <= why.pos < |List(s, t)|
          && Fobj(s, List(s, t)[why.pos]) == Some(o))
  }

  ghost predicate RecordOf(s: State, o: Obj, r: Rec) { o in s.recs.table && s.recs.table[o] == r }

  ghost predicate InflateOk(s: State, t: Tid, o: Obj, why: Why, st: InflateStage) {
    && OwnThin(Lw(s, o), t)
    && WhyOk(s, t, o, why)
    && match st
       case IGetRead => true
       case IGetTable => true
       case ILock(r) => RecordOf(s, o, r) && Mutex(s, r) != t
       case IOwner(r) => RecordOf(s, o, r) && Mutex(s, r) == t && Owner(s, r) == 0 && Count(s, r) == 0
       case IRead(r) => RecordOf(s, o, r) && Mutex(s, r) == t && Owner(s, r) == t && Count(s, r) == 0
       case ICount(r, c) =>
         RecordOf(s, o, r) && Mutex(s, r) == t && Owner(s, r) == t && Count(s, r) == 0 && Lw(s, o).count == c
       case ISet(r) => RecordOf(s, o, r) && Mutex(s, r) == t && Owner(s, r) == t && Lw(s, o).count == Count(s, r)
  }

  ghost predicate NotifyOk(s: State, t: Tid, o: Obj, ret: Ret, n: NotifyStage) {
    && NotifyCtx(s, t, o, ret)
    && match n
       case NLock => true
       case NLoop(pos) => 0 <= pos <= |List(s, t)|
       case NWord(pos) =>
         0 <= pos < |List(s, t)| && Fobj(s, List(s, t)[pos]).Some? && Fobj(s, List(s, t)[pos]) != Some(o)
       case NWake(pos) =>
         && 0 <= pos < |List(s, t)|
         && Fobj(s, List(s, t)[pos]).Some?
         && var cobj := Fobj(s, List(s, t)[pos]).value;
            cobj == o || Lw(s, cobj).Fat?
       case NClear => true
       case NUnlock => List(s, t) == [] && !Bit(s, t)
  }

  ghost predicate ExitOk(s: State, t: Tid, o: Obj, x: ExitStage) {
    match x
    case XRead => true
    case XStore => Lw(s, o) == Thin(t, 0)
    case XBit => true
    case XDecRead => OwnThin(Lw(s, o), t) && Lw(s, o).count > 0
    case XDecWrite(w) => OwnThin(w, t) && w.count > 0 && Lw(s, o) == w
    case XOwner(r) => Lw(s, o) == Fat(r)
    case XCount(r) => OwnsRec(s, t, o, r)
    case XClear(r) => OwnsRec(s, t, o, r) && Count(s, r) == 0
    case XUnlock(r) => Lw(s, o) == Fat(r) && Mutex(s, r) == t && Owner(s, r) == 0 && Count(s, r) == 0
  }

  ghost predicate WaitStageOk(s: State, t: Tid, o: Obj, w: WaitStage) {
    match w
    case WRead => true
    case WOwner(r) => Lw(s, o) == Fat(r)
    case WAdd(r) => OwnsRec(s, t, o, r)
    case WSave(r) => OwnsRec(s, t, o, r)
    case _ => OwnsRec(s, t, o, w.r)
  }

  ghost predicate ParkOk(s: State, t: Tid, o: Obj, r: Rec, saved: int, q: ParkStage) {
    && Lw(s, o) == Fat(r) && saved >= 0 && Held(s, t, o) == saved + 1
    && (if q.PSleep? || q.PLock? then Mutex(s, r) != t else Mutex(s, r) == t && Count(s, r) == 0)
    && (q.PUnlock? || q.POwner? ==> Owner(s, r) == 0)
    && (q.PClear? || q.PRemove? || q.PRestore? ==> Owner(s, r) == t)
  }

  /** The signal flags while lock_record_notify runs. */
  ghost predicate FlagsOk(s: State, r: Rec, one: bool, pos: int, before: seq<bool>) {
    var ws := Waiters(s, r);
    && |before| == |ws| && 0 <= pos <= |ws|
    && (forall j :: 0 <= j < pos ==> Signaled(s, ws[j]))
    && (forall j :: pos <= j < |ws| ==> Signaled(s, ws[j]) == before[j])
    && (one ==> forall j :: 0 <= j < pos ==> before[j])
  }

  ghost predicate SignalOk(s: State, t: Tid, o: Obj, one: bool, g: SignalStage) {
    match g
    case SRead => true
    case SOwner(r) => Lw(s, o) == Fat(r)
    case SLoop(r, pos, before) => OwnsRec(s, t, o, r) && FlagsOk(s, r, one, pos, before)
  }

  ghost predicate PcOk(s: State, t: Tid) {
    match Pc(s, t)
    case Idle => true
    case Enter(o, e) => EnterOk(s, t, o, e)
    case Flc(o, i, f) => FlcStageOk(s, t, o, i, f)
    case Inflate(o, why, st) => InflateOk(s, t, o, why, st)
    case Overflowed(o, r) => OwnsRec(s, t, o, r)
    case Notify(o, ret, n) => NotifyOk(s, t, o, ret, n)
    case Exit(o, x) => ExitOk(s, t, o, x)
    case Wait(o, w) => WaitStageOk(s, t, o, w)
    case Park(o, r, saved, q) => ParkOk(s, t, o, r, saved, q)
    case Signal(o, one, g) => SignalOk(s, t, o, one, g)
  }

  ghost predicate ThreadOk(s: State, t: Tid) {
    var p := Pc(s, t);
    && (FlcHeld(p, t) != 0 ==> Lock(s, FlcHeld(p, t)) == t)
    && (WaitingOn(p).Some? ==> t in Waiters(s, WaitingOn(p).value))
    && (Signaled(s, t) ==> MayBeSignaled(p))
    && PcOk(s, t)
  }

  ghost predicate SharedInv(s: State) {
    && (forall o: Obj :: WordOk(s, o))
    && (forall o: Obj :: TableOk(s, o))
    && (forall r: Rec :: RecOk(s, r))
    && (forall r: Rec :: WaitOk(s, r))
    && (forall i: Tid :: i != 0 ==> FlcOk(s, i))
  }

  ghost predicate Inv(s: State) {
    && SharedInv(s)
    && (forall t: Tid, o: Obj :: t != 0 ==> BalanceOk(s, t, o))
    && (forall t: Tid :: t != 0 ==> ThreadOk(s, t))
  }

  // ---------------------------------------------------------------- what one step may do

  /** The only changes thread t may make to a lockword. */
  ghost predicate WordChange(w: Word, w': Word, t: Tid) {
    || w' == w
    || (w == UNLOCKED && w' == Thin(t, 0))
    || (OwnThin(w, t) && (OwnThin(w', t) || w' == UNLOCKED || w'.Fat?))
  }

  ghost predicate LockChange(m: Tid, m': Tid, t: Tid) {
    m' == m || (m == 0 && m' == t) || (m == t && m' == 0)
  }

  ghost predicate GuarThreads(s: State, t: Tid, s': State) {
    && (forall u: Tid :: u != t ==> Pc(s', u) == Pc(s, u))
    && (s'.hist == s.hist || forall u: Tid, o: Obj :: u != t ==> Held(s', u, o) == Held(s, u, o))
  }

  ghost predicate GuarWords(s: State, t: Tid, s': State) {
    s'.lw == s.lw || forall o: Obj :: WordChange(Lw(s, o), Lw(s', o), t)
  }

  /** Records are never dropped; only a thread inside the mutex of a record changes it. */
  ghost predicate GuarRecords(s: State, t: Tid, s': State) {
    || s'.recs == s.recs
    || (&& (forall o: Obj, r: Rec :: RecordOf(s, o, r) ==> RecordOf(s', o, r))
        && (forall r: Rec :: RecordChange(s, t, s', r)))
  }

  ghost predicate RecordChange(s: State, t: Tid, s': State, r: Rec) {
    && LockChange(Mutex(s, r), Mutex(s', r), t)
    && (Mutex(s, r) != t && Mutex(s, r) != 0 ==>
          Owner(s', r) == Owner(s, r) && Count(s', r) == Count(s, r) && Waiters(s', r) == Waiters(s, r))
    && (forall u: Tid :: u != t && u in Waiters(s, r) ==> u in Waiters(s', r))
  }

  /** An FLC list and its bit change only under its flc_lock. */
  ghost predicate GuarFlc(s: State, t: Tid, s': State) {
    || s'.flc == s.flc
    || (&& (forall i: Tid :: ListChange(s, t, s', i))
        && (forall w: Tid :: FobjChange(s, t, s', w)))
  }

  ghost predicate ListChange(s: State, t: Tid, s': State, i: Tid) {
    && LockChange(Lock(s, i), Lock(s', i), t)
    && (Lock(s, i) != t && Lock(s, i) != 0 ==> Bit(s', i) == Bit(s, i) && List(s', i) == List(s, i))
    && (forall w: Tid :: w in List(s, i) ==> w in List(s', i) || Fobj(s', w) == None)
  }

  ghost predicate FobjChange(s: State, t: Tid, s': State, w: Tid) {
    || Fobj(s', w) == Fobj(s, w)
    || (w == t && !(Pc(s, t).Flc? && Queued(Pc(s, t), Pc(s, t).i)))
    || (Fobj(s', w) == None && Queued(Pc(s, w), t))
  }

  /** The obligation to notify ends only inside the flc_lock. */
  ghost predicate GuarPending(s: State, t: Tid, s': State) {
    Lock(s, t) != t && Lock(s, t) != 0 && Bit(s, t) ==> forall o: Obj :: Pending(s, o, t) ==> Pending(s', o, t)
  }

  ghost predicate GuarWaiting(s: State, t: Tid, s': State) {
    s'.signaled == s.signaled || forall w: Tid :: SignalChange(s, t, s', w)
  }

  ghost predicate SignalChange(s: State, t: Tid, s': State, w: Tid) {
    || Signaled(s', w) == Signaled(s, w)
    || (w == t && WaitingOn(Pc(s, t)).None?)
    || (WaitingOn(Pc(s, w)).Some? && Mutex(s, WaitingOn(Pc(s, w)).value) == t)
  }

  ghost predicate Guar(s: State, t: Tid, s': State) {
    && GuarThreads(s, t, s') && GuarWords(s, t, s') && GuarRecords(s, t, s')
    && GuarFlc(s, t, s') && GuarPending(s, t, s') && GuarWaiting(s, t, s')
  }

  // ---------------------------------------------------------------- stability

  /** No step of t invalidates what another thread u relies on. */
  lemma Stable(s: State, t: Tid, s': State, u: Tid)
    requires SharedInv(s) && Guar(s, t, s')
    requires t != 0 && u != 0 && u != t && ThreadOk(s, u)
    ensures ThreadOk(s', u)
  {
    StableCommon(s, t, s', u);
    match Pc(s, u)
    case Idle =>
    case Enter(o, e) => StableEnter(s, t, s', u, o, e);
    case Flc(o, i, f) => StableFlc(s, t, s', u, o, i, f);
    case Inflate(o, why, st) =>
      if why.InNotify? { OwnListStable(s, t, s', u); }
      StableInflate(s, t, s', u, o, why, st);
    case Overflowed(o, r) => StableWait(s, t, s', u, o, WAdd(r));
    case Notify(o, ret, n) =>
      if !n.NLock? { OwnListStable(s, t, s', u); }
      StableNotify(s, t, s', u, o, ret, n);
    case Exit(o, x) => StableExit(s, t, s', u, o, x);
    case Wait(o, w) => StableWait(s, t, s', u, o, w);
    case Park(o, r, saved, q) => StablePark(s, t, s', u, o, r, saved, q);
    case Signal(o, one, g) => StableSignal(s, t, s', u, o, one, g);
  }

  lemma StableCommon(s: State, t: Tid, s': State, u: Tid)
    requires u != t && t != 0 && u != 0 && ThreadOk(s, u)
    requires GuarThreads(s, t, s') && GuarRecords(s, t, s') && GuarFlc(s, t, s') && GuarWaiting(s, t, s')
    ensures Pc(s', u) == Pc(s, u)
    ensures FlcHeld(Pc(s, u), u) != 0 ==> Lock(s', FlcHeld(Pc(s, u), u)) == u
    ensures WaitingOn(Pc(s, u)).Some? ==> u in Waiters(s', WaitingOn(Pc(s, u)).value)
    ensures Signaled(s', u) ==> MayBeSignaled(Pc(s, u))
  {
    var i := FlcHeld(Pc(s, u), u);
    assert s'.flc == s.flc || ListChange(s, t, s', i);
    assert s'.signaled == s.signaled || SignalChange(s, t, s', u);
    if WaitingOn(Pc(s, u)).Some? {
      assert s'.recs == s.recs || RecordChange(s, t, s', WaitingOn(Pc(s, u)).value);
    }
  }

  lemma StableEnter(s: State, t: Tid, s': State, u: Tid, o: Obj, e: EnterStage)
    requires u != t && t != 0 && u != 0 && EnterOk(s, u, o, e)
    requires GuarWords(s, t, s') && GuarRecords(s, t, s')
    ensures EnterOk(s', u, o, e)
  {
    assert s'.lw == s.lw || WordChange(Lw(s, o), Lw(s', o), t);
    if e.EFatInc? || e.ELock? || e.ESetOwner? {
      assert s'.recs == s.recs || RecordChange(s, t, s', e.r);
    }
  }

  lemma StableFlc(s: State, t: Tid, s': State, u: Tid, o: Obj, i: Tid, f: FlcStage)
    requires u != t && t != 0 && u != 0 && FlcStageOk(s, u, o, i, f)
    requires Pc(s, u) == Flc(o, i, f) && (FlcHeld(Pc(s, u), u) != 0 ==> Lock(s, i) == u)
    requires GuarThreads(s, t, s') && GuarWords(s, t, s') && GuarFlc(s, t, s') && GuarPending(s, t, s')
    ensures FlcStageOk(s', u, o, i, f)
  {
    assert s'.lw == s.lw || WordChange(Lw(s, o), Lw(s', o), t);
    assert s'.flc == s.flc || (ListChange(s, t, s', i) && FobjChange(s, t, s', u));
    assert Pc(s', u) == Pc(s, u);
    if f.FEnqueue? && i != t {
      assert Pc(s', i) == Pc(s, i);
    }
  }

  lemma OwnListStable(s: State, t: Tid, s': State, u: Tid)
    requires u != t && t != 0 && u != 0 && InLoop(Pc(s, u)) && Lock(s, u) == u && FlcOk(s, u)
    requires GuarFlc(s, t, s')
    ensures List(s', u) == List(s, u) && Bit(s', u) == Bit(s, u)
    ensures forall j :: 0 <= j < |List(s, u)| ==> Fobj(s', List(s, u)[j]) == Fobj(s, List(s, u)[j])
  {
    assert s'.flc == s.flc || ListChange(s, t, s', u);
    forall j | 0 <= j < |List(s, u)|
      ensures Fobj(s', List(s, u)[j]) == Fobj(s, List(s, u)[j])
    {
      assert EntryOk(s, u, j);
      assert s'.flc == s.flc || FobjChange(s, t, s', List(s, u)[j]);
    }
  }

  ghost predicate ListKept(s: State, s': State, u: Tid) {
    && List(s', u) == List(s, u) && Bit(s', u) == Bit(s, u)
    && forall j :: 0 <= j < |List(s, u)| ==> Fobj(s', List(s, u)[j]) == Fobj(s, List(s, u)[j])
  }

  lemma StableInflate(s: State, t: Tid, s': State, u: Tid, o: Obj, why: Why, st: InflateStage)
    requires u != t && t != 0 && u != 0 && InflateOk(s, u, o, why, st)
    requires GuarWords(s, t, s') && GuarRecords(s, t, s')
    requires why.InNotify? ==> ListKept(s, s', u)
    ensures InflateOk(s', u, o, why, st)
  {
    assert s'.lw == s.lw || WordChange(Lw(s, o), Lw(s', o), t);
    if !st.IGetRead? && !st.IGetTable? {
      assert s'.recs == s.recs || RecordChange(s, t, s', st.r);
    }
    if why.InNotify? {
      assert s'.lw == s.lw || WordChange(Lw(s, why.rel), Lw(s', why.rel), t);
      if why.ret.RWait? {
        assert s'.recs == s.recs || RecordChange(s, t, s', why.ret.rec);
      }
    }
  }

  lemma StableNotify(s: State, t: Tid, s': State, u: Tid, o: Obj, ret: Ret, n: NotifyStage)
    requires u != t && t != 0 && u != 0 && NotifyOk(s, u, o, ret, n)
    requires GuarWords(s, t, s') && GuarRecords(s, t, s')
    requires !n.NLock? ==> ListKept(s, s', u)
    ensures NotifyOk(s', u, o, ret, n)
  {
    assert s'.lw == s.lw || WordChange(Lw(s, o), Lw(s', o), t);
    if ret.RWait? {
      assert s'.recs == s.recs || RecordChange(s, t, s', ret.rec);
    }
    if n.NWake? {
      var cobj := Fobj(s, List(s, u)[n.pos]).value;
      assert s'.lw == s.lw || WordChange(Lw(s, cobj), Lw(s', cobj), t);
    }
  }

  lemma StableExit(s: State, t: Tid, s': State, u: Tid, o: Obj, x: ExitStage)
    requires u != t && t != 0 && u != 0 && ExitOk(s, u, o, x)
    requires GuarWords(s, t, s') && GuarRecords(s, t, s')
    ensures ExitOk(s', u, o, x)
  {
    assert s'.lw == s.lw || WordChange(Lw(s, o), Lw(s', o), t);
    if x.XCount? || x.XClear? || x.XUnlock? {
      assert s'.recs == s.recs || RecordChange(s, t, s', x.r);
    }
  }

  lemma StableWait(s: State, t: Tid, s': State, u: Tid, o: Obj, w: WaitStage)
    requires u != t && t != 0 && u != 0 && WaitStageOk(s, u, o, w)
    requires GuarWords(s, t, s') && GuarRecords(s, t, s')
    ensures WaitStageOk(s', u, o, w)
  {
    assert s'.lw == s.lw || WordChange(Lw(s, o), Lw(s', o), t);
    if !w.WRead? && !w.WOwner? {
      assert s'.recs == s.recs || RecordChange(s, t, s', w.r);
    }
  }

  lemma StablePark(s: State, t: Tid, s': State, u: Tid, o: Obj, r: Rec, saved: int, q: ParkStage)
    requires u != t && t != 0 && u != 0 && ParkOk(s, u, o, r, saved, q)
    requires GuarThreads(s, t, s') && GuarWords(s, t, s') && GuarRecords(s, t, s')
    ensures ParkOk(s', u, o, r, saved, q)
  {
    assert s'.lw == s.lw || WordChange(Lw(s, o), Lw(s', o), t);
    assert s'.recs == s.recs || RecordChange(s, t, s', r);
  }

  lemma StableSignal(s: State, t: Tid, s': State, u: Tid, o: Obj, one: bool, g: SignalStage)
    requires u != t && t != 0 && u != 0 && SignalOk(s, u, o, one, g)
    requires GuarWords(s, t, s') && GuarRecords(s, t, s') && GuarWaiting(s, t, s')
    requires forall r: Rec :: WaitOk(s, r)
    ensures SignalOk(s', u, o, one, g)
  {
    assert s'.lw == s.lw || WordChange(Lw(s, o), Lw(s', o), t);
    if g.SLoop? {
      assert WaitOk(s, g.r);
      assert s'.recs == s.recs || RecordChange(s, t, s', g.r);
      forall w | w in Waiters(s, g.r)
        ensures Signaled(s', w) == Signaled(s, w)
      {
        assert s'.signaled == s.signaled || SignalChange(s, t, s', w);
      }
    }
  }

  lemma BalanceStable(s: State, t: Tid, s': State, u: Tid, o: Obj)
    requires SharedInv(s) && SharedInv(s') && GuarThreads(s, t, s') && GuarWords(s, t, s') && GuarRecords(s, t, s')
    requires t != 0 && u != 0 && u != t && BalanceOk(s, u, o)
    ensures BalanceOk(s', u, o)
  {
    assert s'.lw == s.lw || WordChange(Lw(s, o), Lw(s', o), t);
    if Lw(s', o).Fat? {
      if Lw(s', o) == Lw(s, o) {
        RecordStable(s, t, s', u, Lw(s, o).rec);
      } else {
        InflatedByOther(s, t, s', u, o, Lw(s', o).rec);
      }
    }
  }

  lemma RecordStable(s: State, t: Tid, s': State, u: Tid, r: Rec)
    requires GuarRecords(s, t, s') && t != 0 && u != 0 && u != t
    ensures Mutex(s', r) == u <==> Mutex(s, r) == u
    ensures Mutex(s, r) == u ==> Count(s', r) == Count(s, r)
  {
    assert s'.recs == s.recs || RecordChange(s, t, s', r);
  }

  /** A record that t installs has nobody else in its mutex. */
  lemma InflatedByOther(s: State, t: Tid, s': State, u: Tid, o: Obj, r: Rec)
    requires SharedInv(s) && SharedInv(s') && GuarRecords(s, t, s') && t != 0 && u != 0 && u != t
    requires OwnThin(Lw(s, o), t) && Lw(s', o) == Fat(r)
    ensures Mutex(s', r) != u
  {
    RecordStable(s, t, s', u, r);
    assert WordOk(s', o) && TableOk(s', o) && RecOk(s, r);
    assert r in s.recs.robj ==> RecordOf(s, s.recs.robj[r], r) && TableOk(s', s.recs.robj[r]);
  }
}
