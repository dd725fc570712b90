/**
  Frames for the steps of the monitor protocol.

  `Kept` collects what has to be shown of a step: it stays within `Guar`, it keeps the shared
  part of the invariant, and the stepping thread can rely on `ThreadOk` and `BalanceOk` at its
  new program counter.  The lemmas here reduce this to the part of the state a step writes:
  nothing but the program counter, one lockword, one record, or one FLC list.
 */
module MonitorFrames {
  import opened MonitorModel
  import opened MonitorInv

  ghost predicate Kept(s: State, t: Tid, s': State) {
    && Guar(s, t, s')
    && SharedInv(s')
    && (forall u: Tid :: u == t ==> ThreadOk(s', u))
    && (forall o: Obj :: BalanceOk(s', t, o))
    && (forall o: Obj :: DepthStep(s, t, s', o))
  }

  ghost predicate PcSelf(s: State, t: Tid) { forall u: Tid :: u == t ==> PcOk(s, u) }

  ghost predicate Ready(s: State, t: Tid) {
    && t != 0
    && SharedInv(s)
    && ThreadOk(s, t)
    && (forall o: Obj :: BalanceOk(s, t, o))
  }

  // ---------------------------------------------------------------- frames

  /** The part of a step of t that the FLC list of i does not see. */
  ghost predicate FlcUntouched(s: State, t: Tid, s': State, i: Tid) {
    && List(s', i) == List(s, i) && Bit(s', i) == Bit(s, i) && Lock(s', i) == Lock(s, i)
    && (Lock(s, i) == t ==> FlcHeld(Pc(s', t), t) == i)
    && (forall w :: w in List(s, i) ==> Fobj(s', w) == Fobj(s, w))
    && (t in List(s, i) ==> Queued(Pc(s, t), i) && Queued(Pc(s', t), i) && Pc(s', t).o == Pc(s, t).o)
    && (i == t ==>
          && (InLoop(Pc(s', t)) ==> InLoop(Pc(s, t)))
          && Done(Pc(s', t), |List(s, t)|) == Done(Pc(s, t), |List(s, t)|)
          && forall o: Obj :: Pending(s, o, t) ==> Pending(s', o, t))
  }

  lemma FlcFrame(s: State, t: Tid, s': State, i: Tid)
    requires i != 0 && t != 0 && FlcOk(s, i) && FlcUntouched(s, t, s', i)
    requires GuarThreads(s, t, s') && GuarWords(s, t, s')
    ensures FlcOk(s', i)
  {
    if i != t {
      assert Pc(s', i) == Pc(s, i);
    }
    forall j | 0 <= j < |List(s', i)|
      ensures EntryOk(s', i, j)
    {
      assert EntryOk(s, i, j);
      var w := List(s, i)[j];
      assert w != t ==> Pc(s', w) == Pc(s, w);
      var o := Pc(s, w).o;
      assert s'.lw == s.lw || WordChange(Lw(s, o), Lw(s', o), t);
    }
    var u := Lock(s, i);
    assert u != t ==> Pc(s', u) == Pc(s, u);
  }

  /** The part of a step of t that the record r does not see. */
  ghost predicate RecUntouched(s: State, t: Tid, s': State, r: Rec) {
    && (r in s'.recs.robj <==> r in s.recs.robj)
    && (r in s.recs.robj ==>
          s'.recs.robj[r] == s.recs.robj[r] && (forall o: Obj :: RecordOf(s, o, r) ==> RecordOf(s', o, r)))
    && Owner(s', r) == Owner(s, r) && Mutex(s', r) == Mutex(s, r) && Count(s', r) == Count(s, r)
    && (Mutex(s, r) == t && r in s.recs.robj ==>
          && (Owner(s, r) == 0 ==> OwnerGap(Pc(s', t), r))
          && (Lw(s, s.recs.robj[r]).Thin? ==>
                Lw(s', s.recs.robj[r]).Thin? ==>
                OwnThin(Lw(s', s.recs.robj[r]), t) && MidInflation(Pc(s', t), s.recs.robj[r], r)))
  }

  lemma RecFrame(s: State, t: Tid, s': State, r: Rec)
    requires t != 0 && RecOk(s, r) && RecUntouched(s, t, s', r)
    requires GuarThreads(s, t, s') && GuarWords(s, t, s')
    ensures RecOk(s', r)
  {
    if r in s.recs.robj {
      var o := s.recs.robj[r];
      assert RecordOf(s, o, r);
      assert s'.lw == s.lw || WordChange(Lw(s, o), Lw(s', o), t);
      var u := Mutex(s, r);
      assert u != t ==> Pc(s', u) == Pc(s, u);
    }
  }

  lemma WaitFrame(s: State, t: Tid, s': State, r: Rec)
    requires t != 0 && WaitOk(s, r)
    requires Waiters(s', r) == Waiters(s, r)
    requires r in s.recs.robj ==> r in s'.recs.robj && s'.recs.robj[r] == s.recs.robj[r]
    requires t in Waiters(s, r) ==> WaitingOn(Pc(s', t)) == WaitingOn(Pc(s, t))
    requires GuarThreads(s, t, s') && GuarWords(s, t, s')
    ensures WaitOk(s', r)
  {
    if Waiters(s, r) != [] {
      assert s'.lw == s.lw || WordChange(Lw(s, s.recs.robj[r]), Lw(s', s.recs.robj[r]), t);
    }
    forall w | w in Waiters(s', r)
      ensures w != 0 && WaitingOn(Pc(s', w)) == Some(r)
    {
      assert w != t ==> Pc(s', w) == Pc(s, w);
    }
  }

  // ---------------------------------------------------------------- parts of the invariant, one by one

  /** Program counters that no shared part of the invariant refers to. */
  predicate Plain(p: PC) {
    match p
    case Idle => true
    case Enter(_, e) => !e.ESetOwner?
    case Flc(_, _, f) => f.FLookup? || f.FLock?
    case Inflate(_, why, st) => !why.InNotify? && (st.IGetRead? || st.IGetTable? || st.ILock?)
    case Exit(_, x) => !x.XBit? && !x.XUnlock?
    case Wait(_, w) => w.WRead? || w.WOwner? || w.WAdd?
    case Signal(_, _, _) => true
    case _ => false
  }

  /** Going from p to p' says nothing new to the FLC lists; t has one of length n. */
  ghost predicate FlcQuiet(t: Tid, p: PC, p': PC, n: int) {
    && FlcHeld(p', t) == FlcHeld(p, t)
    && (InLoop(p') ==> InLoop(p))
    && (p.Flc? && Queued(p, p.i) ==> Queued(p', p.i) && p'.o == p.o)
    && Done(p', n) == Done(p, n)
  }

  lemma FlcPart(s: State, t: Tid, s': State)
    requires t != 0 && forall i: Tid :: i != 0 ==> FlcOk(s, i)
    requires s'.flc == s.flc && GuarThreads(s, t, s') && GuarWords(s, t, s')
    requires FlcQuiet(t, Pc(s, t), Pc(s', t), |List(s, t)|)
    requires forall o: Obj :: Pending(s, o, t) ==> Pending(s', o, t)
    ensures forall i: Tid :: i != 0 ==> FlcOk(s', i)
  {
    forall i: Tid | i != 0 ensures FlcOk(s', i) {
      assert FlcOk(s, i);
      if t in List(s, i) { ListMember(s, i, t); }
      FlcFrame(s, t, s', i);
    }
  }

  lemma WaitPart(s: State, t: Tid, s': State)
    requires t != 0 && forall r: Rec :: WaitOk(s, r)
    requires s'.recs.waiters == s.recs.waiters && s'.recs.robj == s.recs.robj
    requires GuarThreads(s, t, s') && GuarWords(s, t, s')
    requires WaitingOn(Pc(s', t)) == WaitingOn(Pc(s, t))
    ensures forall r: Rec :: WaitOk(s', r)
  {
    forall r: Rec ensures WaitOk(s', r) {
      assert WaitOk(s, r);
      WaitFrame(s, t, s', r);
    }
  }

  /** All records but r, where t leaves the other records alone and was not in the middle of one. */
  lemma RecPart(s: State, t: Tid, s': State, r: Rec)
    requires t != 0 && forall r': Rec :: RecOk(s, r')
    requires GuarThreads(s, t, s') && GuarWords(s, t, s')
    requires s'.recs.table == s.recs.table && s'.recs.robj == s.recs.robj
    requires forall r': Rec :: r' != r ==>
               Owner(s', r') == Owner(s, r') && Mutex(s', r') == Mutex(s, r') && Count(s', r') == Count(s, r')
    requires forall r': Rec :: r' != r ==> !OwnerGap(Pc(s, t), r')
    requires forall o: Obj, r': Rec :: r' != r ==> !MidInflation(Pc(s, t), o, r')
    requires RecOk(s', r)
    ensures forall r': Rec :: RecOk(s', r')
  {
    forall r': Rec ensures RecOk(s', r') {
      assert RecOk(s, r');
      if r' != r {
        RecFrame(s, t, s', r');
      }
    }
  }

  lemma RecPartSame(s: State, t: Tid, s': State)
    requires t != 0 && forall r: Rec :: RecOk(s, r)
    requires GuarThreads(s, t, s') && s'.lw == s.lw && s'.recs == s.recs
    requires forall r: Rec :: OwnerGap(Pc(s, t), r) ==> OwnerGap(Pc(s', t), r)
    requires forall o: Obj, r: Rec :: MidInflation(Pc(s, t), o, r) ==> MidInflation(Pc(s', t), o, r)
    ensures forall r: Rec :: RecOk(s', r)
  {
    forall r: Rec ensures RecOk(s', r) {
      assert RecOk(s, r);
      RecFrame(s, t, s', r);
    }
  }

  lemma WordPartSame(s: State, s': State)
    requires (forall o: Obj :: WordOk(s, o)) && (forall o: Obj :: TableOk(s, o))
    requires s'.lw == s.lw && s'.recs.table == s.recs.table && s'.recs.robj == s.recs.robj
    ensures (forall o: Obj :: WordOk(s', o)) && (forall o: Obj :: TableOk(s', o))
  {
    forall o: Obj ensures WordOk(s', o) && TableOk(s', o) {
      assert WordOk(s, o) && TableOk(s, o);
    }
  }

  lemma BalancePart(s: State, t: Tid, s': State)
    requires forall o: Obj :: BalanceOk(s, t, o)
    requires s'.lw == s.lw && s'.recs == s.recs && s'.hist.held == s.hist.held
    requires forall o: Obj ::
               Expected(Pc(s', t), Held(s, t, o), o) == Expected(Pc(s, t), Held(s, t, o), o)
    requires Pc(s', t).Park? == Pc(s, t).Park?
    requires Pc(s, t).Park? ==> Pc(s', t).r == Pc(s, t).r && Pc(s', t).saved == Pc(s, t).saved
    ensures forall o: Obj :: BalanceOk(s', t, o)
    ensures forall o: Obj :: DepthStep(s, t, s', o)
  {
    forall o: Obj ensures BalanceOk(s', t, o) {
      assert BalanceOk(s, t, o);
    }
  }

  // ---------------------------------------------------------------- moves of the program counter

  /** Only the program counter and the history of outcomes of t change. */
  ghost predicate OnlyMoves(s: State, t: Tid, s': State) {
    && s'.lw == s.lw && s'.recs == s.recs && s'.flc == s.flc
    && s'.hist.held == s.hist.held && s'.signaled == s.signaled
    && s'.pc == s.pc[t := Pc(s', t)]
  }

  /** The step of t from p to p' is no business of any lockword, record or list. */
  ghost predicate Aside(s: State, t: Tid, s': State, p: PC, p': PC) {
    && s'.lw == s.lw && s'.recs == s.recs && s'.flc == s.flc
    && p == Pc(s, t) && p' == Pc(s', t) && WaitingOn(p') == WaitingOn(p)
    && FlcQuiet(t, p, p', |List(s, t)|) && (InLoop(p) ==> InLoop(p'))
    && (NotifyObj(p).Some? ==> NotifyObj(p') == NotifyObj(p))
    && (forall r: Rec :: OwnerGap(p, r) ==> OwnerGap(p', r))
    && (forall o: Obj, r: Rec :: MidInflation(p, o, r) ==> MidInflation(p', o, r))
  }

  lemma StillShared(s: State, t: Tid, s': State, p: PC, p': PC)
    requires t != 0 && SharedInv(s) && GuarThreads(s, t, s') && Aside(s, t, s', p, p')
    ensures SharedInv(s') && GuarPending(s, t, s')
  {
    WordPartSame(s, s');
    RecPartSame(s, t, s');
    WaitPart(s, t, s');
    FlcPart(s, t, s');
  }

  lemma PlainMove(s: State, t: Tid, s': State)
    requires Ready(s, t) && OnlyMoves(s, t, s')
    requires Plain(Pc(s, t)) && Plain(Pc(s', t)) && PcSelf(s', t)
    ensures Kept(s, t, s')
  {
    PlainAside(t, Pc(s, t), Pc(s', t), |List(s, t)|);
    StillShared(s, t, s', Pc(s, t), Pc(s', t));
    BalancePart(s, t, s');
  }

  lemma PlainAside(t: Tid, p: PC, p': PC, n: int)
    requires Plain(p) && Plain(p')
    ensures FlcQuiet(t, p, p', n) && WaitingOn(p) == None && WaitingOn(p') == None && !InLoop(p) && NotifyObj(p) == None
    ensures (forall r: Rec :: !OwnerGap(p, r)) && (forall o: Obj, r: Rec :: !MidInflation(p, o, r))
    ensures forall h: int, o: Obj :: Expected(p', h, o) == Expected(p, h, o)
  {
  }

  /** A move inside an inflation or inside notify_flc_waiters. */
  lemma InnerMove(s: State, t: Tid, s': State)
    requires Ready(s, t) && OnlyMoves(s, t, s') && WaitingOn(Pc(s, t)) == None
    requires
      var p, p' := Pc(s, t), Pc(s', t);
      && FlcQuiet(t, p, p', |List(s, t)|) && (InLoop(p) ==> InLoop(p'))
      && (NotifyObj(p).Some? ==> NotifyObj(p') == NotifyObj(p))
      && WaitingOn(p') == None && !p.Park? && !p'.Park? && !p.Wait?
      && (forall r: Rec :: !OwnerGap(p, r))
      && (forall o: Obj, r: Rec :: MidInflation(p, o, r) ==> MidInflation(p', o, r))
    requires forall o: Obj ::
               Expected(Pc(s', t), Held(s, t, o), o) == Expected(Pc(s, t), Held(s, t, o), o)
    requires PcSelf(s', t)
    ensures Kept(s, t, s')
  {
    StillShared(s, t, s', Pc(s, t), Pc(s', t));
    BalancePart(s, t, s');
  }

  /** A thread on its way out of a wait looks at its flags. */
  lemma ReportMove(s: State, t: Tid, s': State)
    requires Ready(s, t) && OnlyMoves(s, t, s') && Reporting(Pc(s, t)) && Reporting(Pc(s', t))
    requires Pc(s', t).o == Pc(s, t).o && Pc(s', t).w.r == Pc(s, t).w.r && (Signaled(s, t) ==> Pc(s', t).w.WReset?)
    ensures Kept(s, t, s')
  {
    StillShared(s, t, s', Pc(s, t), Pc(s', t));
    BalancePart(s, t, s');
  }

  // ---------------------------------------------------------------- steps on one lockword

  /** t stores w' in the lockword of o, goes to p', and counts d in its history of o. */
  ghost predicate WritesWord(s: State, t: Tid, s': State, o: Obj, w': Word, p': PC, d: int) {
    && s'.lw == s.lw[o := w'] && s'.pc == s.pc[t := p']
    && s'.hist.held == (if d == 0 then s.hist.held else s.hist.held[(t, o) := Held(s, t, o) + d])
    && s'.recs == s.recs && s'.flc == s.flc && s'.signaled == s.signaled
  }

  lemma WordFrame(s: State, t: Tid, s': State, o: Obj, w': Word, p': PC, d: int)
    requires WritesWord(s, t, s', o, w', p', d) && WordChange(Lw(s, o), w', t)
    ensures GuarThreads(s, t, s') && GuarWords(s, t, s')
    ensures Pc(s', t) == p' && Lw(s', o) == w' && Held(s', t, o) == Held(s, t, o) + d
    ensures forall o': Obj :: o' != o ==> Lw(s', o') == Lw(s, o') && Held(s', t, o') == Held(s, t, o')
  {
  }

  lemma WordShared(s: State, t: Tid, s': State, o: Obj, w': Word, p': PC, d: int)
    requires t != 0 && SharedInv(s)
    requires WritesWord(s, t, s', o, w', p', d) && WordChange(Lw(s, o), w', t) && WordOk(s', o)
    requires FlcQuiet(t, Pc(s, t), p', |List(s, t)|) && WaitingOn(p') == WaitingOn(Pc(s, t))
    requires forall o': Obj :: Pending(s, o', t) ==> Pending(s', o', t)
    requires forall r: Rec :: !OwnerGap(Pc(s, t), r)
    requires forall o': Obj, r: Rec :: MidInflation(Pc(s, t), o', r) ==> o' == o && w' == Fat(r)
    ensures SharedInv(s')
  {
    WordFrame(s, t, s', o, w', p', d);
    forall o': Obj ensures WordOk(s', o') && TableOk(s', o') {
      assert WordOk(s, o') && TableOk(s, o');
    }
    forall r: Rec ensures RecOk(s', r) {
      assert RecOk(s, r);
      RecFrame(s, t, s', r);
    }
    WaitPart(s, t, s');
    FlcPart(s, t, s');
  }

  lemma WordBalance(s: State, t: Tid, s': State, o: Obj, w': Word, p': PC, d: int)
    requires WritesWord(s, t, s', o, w', p', d)
    requires w'.Thin? && (if w'.tid == t then w'.count + 1 else 0) == Expected(p', Held(s, t, o) + d, o)
    requires forall o': Obj, h: int :: o' != o ==> Expected(p', h, o') == h
    requires Plain(Pc(s, t)) && !p'.Park? && DepthStep(s, t, s', o)
    requires forall o': Obj :: BalanceOk(s, t, o')
    ensures forall o': Obj :: BalanceOk(s', t, o')
    ensures forall o': Obj :: DepthStep(s, t, s', o')
  {
    forall o': Obj ensures BalanceOk(s', t, o') {
      assert BalanceOk(s, t, o');
      assert Expected(Pc(s, t), Held(s, t, o'), o') == Held(s, t, o');
    }
  }

  /** A thin lockword is written from a plain program counter. */
  lemma ThinStore(s: State, t: Tid, s': State, o: Obj, w': Word, p': PC, d: int)
    requires Ready(s, t) && Plain(Pc(s, t))
    requires WritesWord(s, t, s', o, w', p', d) && WordChange(Lw(s, o), w', t)
    requires w'.Thin? && 0 <= w'.count <= THIN_LOCK_COUNT_MAX && (w'.tid == 0 ==> w'.count == 0)
    requires p' == Idle || (p' == Exit(o, XBit) && w' == UNLOCKED)
    requires OwnThin(Lw(s, o), t) && !OwnThin(w', t) ==> p' == Exit(o, XBit)
    requires (if w'.tid == t then w'.count + 1 else 0) == Expected(p', Held(s, t, o) + d, o)
    requires DepthStep(s, t, s', o)
    ensures Kept(s, t, s')
  {
    WordFrame(s, t, s', o, w', p', d);
    ThinShared(s, t, s', o, w', p', d);
    WordBalance(s, t, s', o, w', p', d);
  }

  lemma ThinShared(s: State, t: Tid, s': State, o: Obj, w': Word, p': PC, d: int)
    requires t != 0 && SharedInv(s) && Plain(Pc(s, t))
    requires WritesWord(s, t, s', o, w', p', d) && WordChange(Lw(s, o), w', t)
    requires w'.Thin? && 0 <= w'.count <= THIN_LOCK_COUNT_MAX && (w'.tid == 0 ==> w'.count == 0)
    requires p' == Idle || p' == Exit(o, XBit)
    requires OwnThin(Lw(s, o), t) && !OwnThin(w', t) ==> p' == Exit(o, XBit)
    ensures SharedInv(s') && GuarPending(s, t, s')
  {
    ThinPending(s, t, s', o, w', p', d);
    WordShared(s, t, s', o, w', p', d);
  }

  lemma ThinPending(s: State, t: Tid, s': State, o: Obj, w': Word, p': PC, d: int)
    requires Plain(Pc(s, t)) && WritesWord(s, t, s', o, w', p', d) && w'.Thin?
    requires OwnThin(Lw(s, o), t) && !OwnThin(w', t) ==> p' == Exit(o, XBit)
    ensures forall o': Obj :: Pending(s, o', t) ==> Pending(s', o', t)
  {
    WordFrameOnly(s, t, s', o, w', p', d);
  }

  lemma WordFrameOnly(s: State, t: Tid, s': State, o: Obj, w': Word, p': PC, d: int)
    requires WritesWord(s, t, s', o, w', p', d)
    ensures Pc(s', t) == p' && Lw(s', o) == w' && forall o': Obj :: o' != o ==> Lw(s', o') == Lw(s, o')
  {
  }

  // ---------------------------------------------------------------- steps on one record

  /** t changes owner, count or mutex of r, goes to p', and counts d in its history of o. */
  ghost predicate WritesRecord(s: State, t: Tid, s': State, r: Rec, p': PC, o: Obj, d: int) {
    && (s'.recs.owner == s.recs.owner || s'.recs.owner == s.recs.owner[r := Owner(s', r)])
    && (s'.recs.count == s.recs.count || s'.recs.count == s.recs.count[r := Count(s', r)])
    && (s'.recs.mutex == s.recs.mutex || s'.recs.mutex == s.recs.mutex[r := Mutex(s', r)])
    && s'.pc == s.pc[t := p']
    && s'.hist.held == (if d == 0 then s.hist.held else s.hist.held[(t, o) := Held(s, t, o) + d])
    && s'.lw == s.lw && s'.recs.table == s.recs.table
    && s'.recs.robj == s.recs.robj && s'.recs.waiters == s.recs.waiters
    && s'.flc == s.flc && s'.signaled == s.signaled
    && (Mutex(s, r) == t || Mutex(s, r) == 0) && (Mutex(s', r) == t || Mutex(s', r) == 0)
  }

  lemma RecordFrame(s: State, t: Tid, s': State, r: Rec, p': PC, o: Obj, d: int)
    requires WritesRecord(s, t, s', r, p', o, d)
    ensures GuarThreads(s, t, s') && GuarRecords(s, t, s')
    ensures Pc(s', t) == p' && Held(s', t, o) == Held(s, t, o) + d
    ensures forall o': Obj :: o' != o ==> Held(s', t, o') == Held(s, t, o')
    ensures forall r': Rec :: r' != r ==>
               Owner(s', r') == Owner(s, r') && Mutex(s', r') == Mutex(s, r') && Count(s', r') == Count(s, r')
  {
    assert forall r': Rec :: RecordChange(s, t, s', r');
  }

  /** t is in the middle of no record other than r, and its obligations to others stay. */
  ghost predicate AtRecord(t: Tid, p: PC, p': PC, n: int, r: Rec) {
    && FlcQuiet(t, p, p', n)
    && (InLoop(p) ==> InLoop(p'))
    && (NotifyObj(p).Some? ==> NotifyObj(p') == NotifyObj(p))
    && WaitingOn(p') == WaitingOn(p)
    && (forall r': Rec :: r' != r ==> !OwnerGap(p, r'))
    && (forall o: Obj, r': Rec :: r' != r ==> !MidInflation(p, o, r'))
  }

  lemma RecordShared(s: State, t: Tid, s': State, r: Rec, p': PC, o: Obj, d: int)
    requires t != 0 && SharedInv(s)
    requires WritesRecord(s, t, s', r, p', o, d) && AtRecord(t, Pc(s, t), p', |List(s, t)|, r) && RecOk(s', r)
    ensures SharedInv(s')
  {
    RecordFrame(s, t, s', r, p', o, d);
    WordPartSame(s, s');
    RecPart(s, t, s', r);
    WaitPart(s, t, s');
    FlcPart(s, t, s');
  }

  lemma RecordBalance(s: State, t: Tid, s': State, r: Rec, p': PC, o: Obj, d: int)
    requires WritesRecord(s, t, s', r, p', o, d)
    requires (forall o': Obj :: WordOk(s, o')) && (forall o': Obj :: TableOk(s, o')) && RecordOf(s, o, r)
    requires BalanceOk(s', t, o) && DepthStep(s, t, s', o)
    requires forall o': Obj, h: int :: o' != o ==> Expected(p', h, o') == Expected(Pc(s, t), h, o')
    requires Pc(s, t).Park? ==> Pc(s, t).r == r
    requires p'.Park? ==> p'.r == r
    requires forall o': Obj :: BalanceOk(s, t, o')
    ensures forall o': Obj :: BalanceOk(s', t, o')
    ensures forall o': Obj :: DepthStep(s, t, s', o')
  {
    RecordFrame(s, t, s', r, p', o, d);
    forall o': Obj ensures BalanceOk(s', t, o') {
      assert BalanceOk(s, t, o') && WordOk(s, o') && TableOk(s, o') && TableOk(s, o);
    }
  }

  lemma RecordStore(s: State, t: Tid, s': State, r: Rec, p': PC, o: Obj, d: int)
    requires Ready(s, t) && RecordOf(s, o, r)
    requires WritesRecord(s, t, s', r, p', o, d) && AtRecord(t, Pc(s, t), p', |List(s, t)|, r) && RecOk(s', r)
    requires BalanceOk(s', t, o) && DepthStep(s, t, s', o)
    requires forall o': Obj, h: int :: o' != o ==> Expected(p', h, o') == Expected(Pc(s, t), h, o')
    requires Pc(s, t).Park? ==> Pc(s, t).r == r
    requires p'.Park? ==> p'.r == r
    requires Signaled(s, t) ==> MayBeSignaled(p')
    requires PcSelf(s', t)
    ensures Kept(s, t, s')
  {
    RecordGuar(s, t, s', r, p', o, d);
    RecordShared(s, t, s', r, p', o, d);
    RecordBalance(s, t, s', r, p', o, d);
  }

  lemma RecordGuar(s: State, t: Tid, s': State, r: Rec, p': PC, o: Obj, d: int)
    requires WritesRecord(s, t, s', r, p', o, d) && AtRecord(t, Pc(s, t), p', |List(s, t)|, r)
    ensures Guar(s, t, s') && Pc(s', t) == p'
  {
    RecordFrame(s, t, s', r, p', o, d);
  }

  // ---------------------------------------------------------------- steps on the FLC lists

  /** t changes FLC data only, goes to p', and counts d in its history of o. */
  ghost predicate WritesFlc(s: State, t: Tid, s': State, p': PC, o: Obj, d: int) {
    && s'.lw == s.lw && s'.recs == s.recs && s'.signaled == s.signaled && s'.pc == s.pc[t := p']
    && s'.hist.held == (if d == 0 then s.hist.held else s.hist.held[(t, o) := Held(s, t, o) + d])
  }

  lemma FlcWriteFrame(s: State, t: Tid, s': State, p': PC, o: Obj, d: int)
    requires WritesFlc(s, t, s', p', o, d)
    ensures GuarThreads(s, t, s') && Pc(s', t) == p' && Held(s', t, o) == Held(s, t, o) + d
    ensures forall o': Obj :: o' != o ==> Held(s', t, o') == Held(s, t, o')
  {
  }

  /** A program counter of t at which no lock record is in the middle of anything. */
  predicate FreeOfRecords(p: PC) {
    (p.Flc? || p.Notify? || p.Enter? || p.Wait? || p.Idle?) && WaitingOn(p) == None && !(p.Enter? && p.e.ESetOwner?)
    && !Reporting(p)
  }

  lemma FlcStore(s: State, t: Tid, s': State, p': PC, o: Obj, d: int)
    requires Ready(s, t) && WritesFlc(s, t, s', p', o, d)
    requires FreeOfRecords(Pc(s, t)) && FreeOfRecords(p')
    requires forall o': Obj ::
               Expected(p', Held(s, t, o') + (if o' == o then d else 0), o') == Expected(Pc(s, t), Held(s, t, o'), o')
    requires GuarFlc(s, t, s') && GuarPending(s, t, s') && forall i: Tid :: i != 0 ==> FlcOk(s', i)
    requires FlcHeld(p', t) != 0 ==> Lock(s', FlcHeld(p', t)) == t
    requires PcSelf(s', t)
    ensures Kept(s, t, s')
  {
    FlcWriteFrame(s, t, s', p', o, d);
    WordPartSame(s, s');
    RecPartSame(s, t, s');
    WaitPart(s, t, s');
    FlcBalance(s, t, s', p', o, d);
  }

  lemma FlcBalance(s: State, t: Tid, s': State, p': PC, o: Obj, d: int)
    requires WritesFlc(s, t, s', p', o, d) && FreeOfRecords(Pc(s, t)) && FreeOfRecords(p')
    requires forall o': Obj ::
               Expected(p', Held(s, t, o') + (if o' == o then d else 0), o') == Expected(Pc(s, t), Held(s, t, o'), o')
    requires forall o': Obj :: BalanceOk(s, t, o')
    ensures forall o': Obj :: BalanceOk(s', t, o')
    ensures forall o': Obj :: DepthStep(s, t, s', o')
  {
    FlcWriteFrame(s, t, s', p', o, d);
    forall o': Obj ensures BalanceOk(s', t, o') {
      assert BalanceOk(s, t, o');
    }
  }

  lemma FlcOthers(s: State, t: Tid, s': State, i: Tid)
    requires t != 0 && forall i': Tid :: i' != 0 ==> FlcOk(s, i')
    requires GuarThreads(s, t, s') && GuarWords(s, t, s') && (i == 0 || FlcOk(s', i))
    requires forall i': Tid :: i' != i && i' != 0 ==> FlcUntouched(s, t, s', i')
    ensures forall i': Tid :: i' != 0 ==> FlcOk(s', i')
  {
    forall i': Tid | i' != 0 ensures FlcOk(s', i') {
      assert FlcOk(s, i');
      if i' != i { FlcFrame(s, t, s', i'); }
    }
  }

  /** t enters or leaves the flc_lock of i. */
  lemma LockFrame(s: State, t: Tid, s': State, i: Tid, p': PC)
    requires t != 0 && i != 0 && forall i': Tid :: i' != 0 ==> FlcOk(s, i')
    requires s'.lw == s.lw && GuarThreads(s, t, s') && Pc(s', t) == p'
    requires s'.flc == SetLock(s, i, if FlcHeld(p', t) == i then t else 0).flc
    requires Lock(s, i) == 0 || Lock(s, i) == t
    requires FlcHeld(Pc(s, t), t) == 0 || FlcHeld(Pc(s, t), t) == i
    requires FlcHeld(p', t) == 0 || FlcHeld(p', t) == i
    requires Pc(s, t).Flc? && Queued(Pc(s, t), Pc(s, t).i) ==> Queued(p', Pc(s, t).i) && p'.o == Pc(s, t).o
    requires Done(p', |List(s, t)|) == Done(Pc(s, t), |List(s, t)|)
    requires forall o: Obj :: List(s, t) != [] && Pending(s, o, t) ==> Pending(s', o, t)
    ensures GuarFlc(s, t, s')
    ensures forall i': Tid :: i' != 0 ==> FlcOk(s', i')
  {
    assert forall i': Tid :: ListChange(s, t, s', i');
    assert forall w: Tid :: FobjChange(s, t, s', w);
    forall i': Tid | i' != 0
      ensures FlcOk(s', i')
    {
      assert FlcOk(s, i');
      if i' != t { assert Pc(s', i') == Pc(s, i'); }
      LockEntries(s, t, s', i');
      var u := Lock(s, i');
      assert u != t ==> Pc(s', u) == Pc(s, u);
    }
  }

  /** The lists are as they were, and so is what they say about the threads in them. */
  lemma LockEntries(s: State, t: Tid, s': State, i': Tid)
    requires t != 0 && i' != 0 && FlcOk(s, i') && s'.lw == s.lw && GuarThreads(s, t, s')
    requires s'.flc.list == s.flc.list && s'.flc.fobj == s.flc.fobj
    requires Pc(s, t).Flc? && Queued(Pc(s, t), Pc(s, t).i) ==>
               Queued(Pc(s', t), Pc(s, t).i) && Pc(s', t).o == Pc(s, t).o
    requires Done(Pc(s', t), |List(s, t)|) == Done(Pc(s, t), |List(s, t)|)
    requires forall o: Obj :: List(s, t) != [] && Pending(s, o, t) ==> Pending(s', o, t)
    ensures forall j :: 0 <= j < |List(s', i')| ==> EntryOk(s', i', j)
  {
    if i' != t { assert Pc(s', i') == Pc(s, i'); }
    forall j | 0 <= j < |List(s', i')| ensures EntryOk(s', i', j) {
      assert EntryOk(s, i', j);
      var w := List(s, i')[j];
      assert w != t ==> Pc(s', w) == Pc(s, w);
    }
  }

  /** t, inside the flc_lock of i, sets the FLC bit of i to b. */
  lemma BitFrame(s: State, t: Tid, s': State, i: Tid, b: bool, p': PC)
    requires t != 0 && i != 0 && i != t && Lock(s, i) == t && forall i': Tid :: i' != 0 ==> FlcOk(s, i')
    requires s'.lw == s.lw && GuarThreads(s, t, s') && Pc(s', t) == p'
    requires s'.flc == SetBit(s, i, b).flc && (List(s, i) != [] ==> b)
    requires FlcQuiet(t, Pc(s, t), p', |List(s, t)|) && !InLoop(Pc(s, t)) && NotifyObj(Pc(s, t)) == None
    requires forall i': Tid :: !Queued(Pc(s, t), i')
    ensures GuarFlc(s, t, s')
    ensures forall i': Tid :: i' != 0 ==> FlcOk(s', i')
  {
    assert forall i': Tid :: ListChange(s, t, s', i');
    assert forall w: Tid :: FobjChange(s, t, s', w);
    forall i': Tid | i' != 0 ensures FlcOk(s', i') {
      assert FlcOk(s, i');
      if t in List(s, i') { ListMember(s, i', t); }
      if i' != i {
        FlcFrame(s, t, s', i');
      } else {
        assert Pc(s', i) == Pc(s, i);
        forall j | 0 <= j < |List(s', i)| ensures EntryOk(s', i, j) {
          assert EntryOk(s, i, j);
          var w := List(s, i)[j];
          assert w != t ==> Pc(s', w) == Pc(s, w);
        }
      }
    }
  }

  // ---------------------------------------------------------------- steps on one wait list

  /** t, inside the mutex of r, gives it the wait list ws. */
  ghost predicate WritesWaiters(s: State, t: Tid, s': State, r: Rec, ws: seq<Tid>, p': PC) {
    && s'.lw == s.lw && s'.flc == s.flc && s'.hist == s.hist && s'.signaled == s.signaled
    && s'.pc == s.pc[t := p'] && s'.recs == SetWaiters(s, r, ws).recs
  }

  lemma WaitersStore(s: State, t: Tid, s': State, o: Obj, r: Rec, ws: seq<Tid>, p': PC)
    requires Ready(s, t) && WritesWaiters(s, t, s', r, ws, p') && OwnsRec(s, t, o, r)
    requires Distinct(ws)
    requires forall w: Tid :: w in ws <==> (w in Waiters(s, r) && w != t) || (w == t && WaitingOn(p') == Some(r))
    requires
      var p := Pc(s, t);
      || (p.Wait? && p.w.WAdd? && p' == Wait(p.o, WSave(r)))
      || (p.Park? && p.r == r && p.q.PRemove? && p' == p.(q := PRestore))
    requires PcSelf(s', t)
    ensures Kept(s, t, s')
  {
    assert WordOk(s, o) && TableOk(s, o) && RecOk(s, r);
    WaitersShared(s, t, s', r, ws, p');
    WaitersGuar(s, t, s', r, ws, p');
    FlcPart(s, t, s');
    WaitersBalance(s, t, s', r, ws, p');
  }

  lemma WaitersBalance(s: State, t: Tid, s': State, r: Rec, ws: seq<Tid>, p': PC)
    requires WritesWaiters(s, t, s', r, ws, p') && (forall o: Obj :: BalanceOk(s, t, o))
    requires Pc(s, t).Park? == p'.Park? && (p'.Park? ==> p'.r == Pc(s, t).r && p'.saved == Pc(s, t).saved)
    requires forall h: int, o: Obj :: Expected(p', h, o) == Expected(Pc(s, t), h, o)
    ensures forall o: Obj :: BalanceOk(s', t, o) && DepthStep(s, t, s', o)
  {
    forall o: Obj ensures BalanceOk(s', t, o) {
      assert BalanceOk(s, t, o);
    }
  }

  lemma WaitersGuar(s: State, t: Tid, s': State, r: Rec, ws: seq<Tid>, p': PC)
    requires WritesWaiters(s, t, s', r, ws, p') && Mutex(s, r) == t
    requires forall w: Tid :: w in Waiters(s, r) && w != t ==> w in ws
    ensures GuarRecords(s, t, s')
  {
    forall r': Rec ensures RecordChange(s, t, s', r') { }
  }

  lemma WaitersShared(s: State, t: Tid, s': State, r: Rec, ws: seq<Tid>, p': PC)
    requires t != 0 && SharedInv(s) && WritesWaiters(s, t, s', r, ws, p')
    requires r in s.recs.robj && Lw(s, s.recs.robj[r]) == Fat(r) && Distinct(ws)
    requires forall w: Tid :: w in ws <==> (w in Waiters(s, r) && w != t) || (w == t && WaitingOn(p') == Some(r))
    requires forall r': Rec :: !OwnerGap(Pc(s, t), r')
    requires WaitingOn(Pc(s, t)) == None || WaitingOn(Pc(s, t)) == Some(r)
    requires !Pc(s, t).Inflate?
    ensures (forall o': Obj :: WordOk(s', o')) && (forall o': Obj :: TableOk(s', o'))
    ensures (forall r': Rec :: RecOk(s', r')) && (forall r': Rec :: WaitOk(s', r'))
    ensures GuarThreads(s, t, s')
  {
    WordPartSame(s, s');
    forall r': Rec ensures RecOk(s', r') && WaitOk(s', r') {
      assert RecOk(s, r') && WaitOk(s, r');
      RecFrame(s, t, s', r');
      if r' != r {
        WaitFrame(s, t, s', r');
      } else {
        forall w | w in ws ensures w != 0 && WaitingOn(Pc(s', w)) == Some(r) { }
      }
    }
  }

  lemma WithoutDistinct(ws: seq<Tid>, t: Tid)
    requires Distinct(ws)
    ensures Distinct(Without(ws, t))
  {
    if ws == [] {
    } else {
      var rest := ws[1..];
      assert Distinct(rest);
      WithoutDistinct(rest, t);
      var r := Without(rest, t);
      if ws[0] != t {
        assert ws[0] !in rest;
        assert Without(ws, t) == [ws[0]] + r;
      }
    }
  }

  // ---------------------------------------------------------------- steps on one signal flag

  /** t gives the signal flag of w the value b. */
  ghost predicate WritesSignal(s: State, t: Tid, s': State, w: Tid, b: bool) {
    && s'.lw == s.lw && s'.recs == s.recs && s'.flc == s.flc && s'.hist.held == s.hist.held
    && s'.pc == s.pc[t := Pc(s', t)] && s'.signaled == s.signaled[w := b]
  }

  lemma SignalStore(s: State, t: Tid, s': State, w: Tid)
    requires Ready(s, t) && WritesSignal(s, t, s', w, true) && w != t
    requires Pc(s, t).Signal? && Plain(Pc(s', t))
    requires WaitingOn(Pc(s, w)).Some? && Mutex(s, WaitingOn(Pc(s, w)).value) == t
    requires PcSelf(s', t)
    ensures Kept(s, t, s')
  {
    StillShared(s, t, s', Pc(s, t), Pc(s', t));
    BalancePart(s, t, s');
    assert forall w': Tid :: SignalChange(s, t, s', w');
  }

  lemma SignalReset(s: State, t: Tid, s': State)
    requires Ready(s, t) && WritesSignal(s, t, s', t, false)
    requires Pc(s, t).Wait? && Pc(s, t).w.WReset? && Pc(s', t) == Idle
    ensures Kept(s, t, s')
  {
    StillShared(s, t, s', Pc(s, t), Pc(s', t));
    BalancePart(s, t, s');
    assert forall w': Tid :: SignalChange(s, t, s', w');
  }
}
