/** Every step of the monitor protocol keeps the invariant. */
module MonitorSteps {
  import opened MonitorModel
  import opened MonitorInv
  import opened MonitorFrames

  // ---------------------------------------------------------------- lock_monitor_enter

  lemma KeepEnterMove(s: State, t: Tid, s': State)
    requires Ready(s, t) && EnterStep(s, t, s')
    requires
      var e := Pc(s, t).e;
      e.ERead? || (e.ECas? && Lw(s, Pc(s, t).o) != UNLOCKED) || e.EIncRead? || e.EOwner?
    ensures Kept(s, t, s')
  {
    var o := Pc(s, t).o;
    assert WordOk(s, o) && TableOk(s, o);
    if Lw(s, o).Fat? {
      assert RecOk(s, Lw(s, o).rec);
    }
    PlainMove(s, t, s');
  }

  lemma KeepCas(s: State, t: Tid, s': State, o: Obj, w: Word)
    requires Ready(s, t) && Pc(s, t) == Enter(o, ECas(w)) && Lw(s, o) == UNLOCKED
    requires s' == Entered(SetLw(s, o, Thin(t, 0)), t, o)
    ensures Kept(s, t, s')
  {
    assert BalanceOk(s, t, o);
    ThinStore(s, t, s', o, Thin(t, 0), Idle, 1);
  }

  lemma KeepIncWrite(s: State, t: Tid, s': State, o: Obj, w: Word)
    requires Ready(s, t) && Pc(s, t) == Enter(o, EIncWrite(w)) && w.Thin?
    requires s' == Entered(SetLw(s, o, Incremented(w)), t, o)
    ensures Kept(s, t, s')
  {
    assert BalanceOk(s, t, o) && WordOk(s, o);
    ThinStore(s, t, s', o, Incremented(w), Idle, 1);
  }

  /** The record in a fat lockword belongs to that object alone. */
  lemma RecordOfWord(s: State, o: Obj, r: Rec)
    requires SharedInv(s) && Lw(s, o) == Fat(r)
    ensures r in s.recs.robj && s.recs.robj[r] == o && RecordOf(s, o, r)
  {
    assert WordOk(s, o) && TableOk(s, o);
  }

  lemma KeepFatInc(s: State, t: Tid, s': State, o: Obj, r: Rec)
    requires Ready(s, t) && Pc(s, t) == Enter(o, EFatInc(r))
    requires s' == Entered(SetCount(s, r, Count(s, r) + 1), t, o)
    ensures Kept(s, t, s')
  {
    RecordOfWord(s, o, r);
    assert RecOk(s, r) && BalanceOk(s, t, o);
    RecordStore(s, t, s', r, Idle, o, 1);
  }

  lemma KeepEnterLock(s: State, t: Tid, s': State, o: Obj, r: Rec)
    requires Ready(s, t) && Pc(s, t) == Enter(o, ELock(r)) && Mutex(s, r) == 0
    requires s' == Goto(SetMutex(s, r, t), t, Enter(o, ESetOwner(r)))
    ensures Kept(s, t, s')
  {
    RecordOfWord(s, o, r);
    assert RecOk(s, r) && BalanceOk(s, t, o);
    RecordStore(s, t, s', r, Enter(o, ESetOwner(r)), o, 0);
  }

  lemma KeepEnterOwner(s: State, t: Tid, s': State, o: Obj, r: Rec)
    requires Ready(s, t) && Pc(s, t) == Enter(o, ESetOwner(r))
    requires s' == Entered(SetOwner(s, r, t), t, o)
    ensures Kept(s, t, s')
  {
    RecordOfWord(s, o, r);
    assert RecOk(s, r) && BalanceOk(s, t, o);
    RecordStore(s, t, s', r, Idle, o, 1);
  }

  lemma EnterKept(s: State, t: Tid, s': State)
    requires Ready(s, t) && EnterStep(s, t, s')
    ensures Kept(s, t, s')
  {
    var o := Pc(s, t).o;
    match Pc(s, t).e
    case ECas(w) => if Lw(s, o) == UNLOCKED { KeepCas(s, t, s', o, w); } else { KeepEnterMove(s, t, s'); }
    case EIncWrite(w) => KeepIncWrite(s, t, s', o, w);
    case EFatInc(r) => KeepFatInc(s, t, s', o, r);
    case ELock(r) => KeepEnterLock(s, t, s', o, r);
    case ESetOwner(r) => KeepEnterOwner(s, t, s', o, r);
    case _ => KeepEnterMove(s, t, s');
  }

  // ---------------------------------------------------------------- sable_flc_waiting

  lemma KeepFlcLock(s: State, t: Tid, s': State, o: Obj, i: Tid, f: FlcStage)
    requires Ready(s, t) && Pc(s, t) == Flc(o, i, f) && (f.FLock? || f.FSleep?) && Lock(s, i) == 0
    requires s' == FlcNext(s, t, o, i, f, false)
    ensures Kept(s, t, s')
  {
    var p' := Flc(o, i, if f.FLock? then FReadBit else FCheck);
    FlcWriteFrame(s, t, s', p', o, 0);
    LockFrame(s, t, s', i, p');
    FlcStore(s, t, s', p', o, 0);
  }

  lemma KeepFlcUnlock(s: State, t: Tid, s': State, o: Obj, i: Tid)
    requires Ready(s, t) && Pc(s, t) == Flc(o, i, FUnlock) && s' == FlcNext(s, t, o, i, FUnlock, false)
    ensures Kept(s, t, s')
  {
    FlcWriteFrame(s, t, s', Enter(o, ERead), o, 0);
    LockFrame(s, t, s', i, Enter(o, ERead));
    FlcStore(s, t, s', Enter(o, ERead), o, 0);
  }

  lemma KeepFlcCheck(s: State, t: Tid, s': State, o: Obj, i: Tid)
    requires Ready(s, t) && Pc(s, t) == Flc(o, i, FCheck) && s' == FlcNext(s, t, o, i, FCheck, false)
    ensures Kept(s, t, s')
  {
    if Fobj(s, t) == None {
      KeepFlcWoken(s, t, s', o, i);
    } else {
      var p' := Flc(o, i, FSleep);
      FlcWriteFrame(s, t, s', p', o, 0);
      LockFrame(s, t, s', i, p');
      FlcStore(s, t, s', p', o, 0);
    }
  }

  lemma KeepFlcWoken(s: State, t: Tid, s': State, o: Obj, i: Tid)
    requires Ready(s, t) && Pc(s, t) == Flc(o, i, FCheck) && s' == Goto(s, t, Flc(o, i, FUnlock)) && Fobj(s, t) == None
    ensures Kept(s, t, s')
  {
    var p' := Flc(o, i, FUnlock);
    FlcWriteFrame(s, t, s', p', o, 0);
    assert FlcOk(s, i);
    forall i': Tid | i' != 0 ensures FlcUntouched(s, t, s', i') {
      assert FlcOk(s, i');
      // a queued thread still waits to be woken, since i cannot be inside its flc_lock
      if t in List(s, i') { ListMember(s, i', t); }
    }
    FlcOthers(s, t, s', 0);
    FlcStore(s, t, s', p', o, 0);
  }

  lemma KeepFlcMove(s: State, t: Tid, s': State, o: Obj, i: Tid, f: FlcStage)
    requires Ready(s, t) && Pc(s, t) == Flc(o, i, f) && (f.FReadBit? || f.FReread?)
    requires s' == FlcNext(s, t, o, i, f, false)
    ensures Kept(s, t, s')
  {
    assert FlcOk(s, i);
    FlcWriteFrame(s, t, s', Pc(s', t), o, 0);
    FlcPart(s, t, s');
    FlcStore(s, t, s', Pc(s', t), o, 0);
  }

  lemma KeepFlcBit(s: State, t: Tid, s': State, o: Obj, i: Tid, f: FlcStage)
    requires Ready(s, t) && Pc(s, t) == Flc(o, i, f) && (f.FSetBit? || f.FRestore?)
    requires s' == FlcNext(s, t, o, i, f, false)
    ensures Kept(s, t, s')
  {
    var p' := Flc(o, i, if f.FSetBit? then FReread(f.prev) else FUnlock);
    assert FlcOk(s, i);
    FlcWriteFrame(s, t, s', p', o, 0);
    BitFrame(s, t, s', i, f.FSetBit? || f.prev, p');
    FlcStore(s, t, s', p', o, 0);
  }

  lemma EnqueueFrame(s: State, t: Tid, s': State, o: Obj, i: Tid)
    requires Ready(s, t) && Pc(s, t) == Flc(o, i, FEnqueue) && s' == FlcNext(s, t, o, i, FEnqueue, false)
    requires Marked(s', t)
    ensures FlcOk(s', i)
  {
    assert FlcOk(s, i);
    assert Pc(s', i) == Pc(s, i);
    assert t !in List(s, i) by {
      if t in List(s, i) { ListMember(s, i, t); }
    }
    forall j | 0 <= j < |List(s', i)| ensures EntryOk(s', i, j) {
      if j > 0 {
        assert EntryOk(s, i, j - 1);
        assert List(s', i)[j] == List(s, i)[j - 1];
      }
    }
  }

  lemma EnqueueGuar(s: State, t: Tid, s': State, o: Obj, i: Tid)
    requires Pc(s, t) == Flc(o, i, FEnqueue) && s' == FlcNext(s, t, o, i, FEnqueue, false) && Lock(s, i) == t
    ensures GuarFlc(s, t, s')
  {
    assert forall i': Tid :: ListChange(s, t, s', i');
    assert forall w: Tid :: FobjChange(s, t, s', w);
  }

  lemma KeepFlcEnqueue(s: State, t: Tid, s': State, o: Obj, i: Tid)
    requires Ready(s, t) && Pc(s, t) == Flc(o, i, FEnqueue) && s' == FlcNext(s, t, o, i, FEnqueue, false)
    requires Marked(s', t)
    ensures Kept(s, t, s')
  {
    var p' := Flc(o, i, FCheck);
    FlcWriteFrame(s, t, s', p', o, 0);
    EnqueueGuar(s, t, s', o, i);
    EnqueueFrame(s, t, s', o, i);
    forall i': Tid | i' != 0 && i' != i ensures FlcUntouched(s, t, s', i') {
      assert FlcOk(s, i');
      if t in List(s, i') { ListMember(s, i', t); }
    }
    FlcOthers(s, t, s', i);
    FlcStore(s, t, s', p', o, 0);
  }

  lemma FlcKept(s: State, t: Tid, s': State)
    requires Ready(s, t) && FlcStep(s, t, s') && Marked(s', t)
    ensures Kept(s, t, s')
  {
    var Flc(o, i, f) := Pc(s, t);
    if f.FLookup? {
      PlainMove(s, t, s');
    } else {
      assert s' == FlcNext(s, t, o, i, f, false);
      match f
      case FLock => KeepFlcLock(s, t, s', o, i, f);
      case FSleep => KeepFlcLock(s, t, s', o, i, f);
      case FUnlock => KeepFlcUnlock(s, t, s', o, i);
      case FCheck => KeepFlcCheck(s, t, s', o, i);
      case FReadBit => KeepFlcMove(s, t, s', o, i, f);
      case FReread(_) => KeepFlcMove(s, t, s', o, i, f);
      case FSetBit(_) => KeepFlcBit(s, t, s', o, i, f);
      case FRestore(_) => KeepFlcBit(s, t, s', o, i, f);
      case FEnqueue => KeepFlcEnqueue(s, t, s', o, i);
    }
  }

  // ---------------------------------------------------------------- inflation

  lemma KeepInflateGet(s: State, t: Tid, s': State, o: Obj, why: Why)
    requires Ready(s, t) && Pc(s, t) == Inflate(o, why, IGetRead)
    requires s' == Goto(s, t, Inflate(o, why, if Lw(s, o).Fat? then ILock(Lw(s, o).rec) else IGetTable))
    ensures Kept(s, t, s')
  {
    InnerMove(s, t, s');
  }

  lemma KeepInflateFound(s: State, t: Tid, s': State, o: Obj, why: Why)
    requires Ready(s, t) && Pc(s, t) == Inflate(o, why, IGetTable) && o in s.recs.table
    requires s' == Goto(s, t, Inflate(o, why, ILock(s.recs.table[o])))
    ensures Kept(s, t, s')
  {
    assert TableOk(s, o) && RecOk(s, s.recs.table[o]);
    InnerMove(s, t, s');
  }

  lemma KeepInflateRead(s: State, t: Tid, s': State, o: Obj, why: Why, r: Rec)
    requires Ready(s, t) && Pc(s, t) == Inflate(o, why, IRead(r))
    requires s' == Goto(s, t, Inflate(o, why, ICount(r, Lw(s, o).count))) && Lw(s, o).Thin?
    ensures Kept(s, t, s')
  {
    InnerMove(s, t, s');
  }

  lemma NewRecordShared(s: State, t: Tid, s': State, o: Obj, why: Why, nrec: Rec)
    requires (forall r: Rec :: RecOk(s, r)) && (forall r: Rec :: WaitOk(s, r))
    requires t != 0 && Pc(s, t) == Inflate(o, why, IGetTable)
    requires s' == Goto(NewRecord(s, o, nrec), t, Inflate(o, why, ILock(nrec)))
    requires o !in s.recs.table && nrec !in s.recs.robj && GuarThreads(s, t, s')
    ensures (forall r: Rec :: RecOk(s', r)) && (forall r: Rec :: WaitOk(s', r))
  {
    forall r: Rec ensures RecOk(s', r) && WaitOk(s', r) {
      assert RecOk(s, r) && WaitOk(s, r);
      if r != nrec {
        RecFrame(s, t, s', r);
        WaitFrame(s, t, s', r);
      }
    }
  }

  lemma NewRecordWords(s: State, t: Tid, s': State, o: Obj, why: Why, nrec: Rec)
    requires Ready(s, t) && Pc(s, t) == Inflate(o, why, IGetTable)
    requires s' == Goto(NewRecord(s, o, nrec), t, Inflate(o, why, ILock(nrec)))
    requires o !in s.recs.table && nrec !in s.recs.robj
    ensures (forall o': Obj :: WordOk(s', o')) && (forall o': Obj :: TableOk(s', o'))
  {
    forall o': Obj ensures WordOk(s', o') && TableOk(s', o') {
      assert WordOk(s, o') && TableOk(s, o');
    }
  }

  lemma NewRecordGuar(s: State, t: Tid, s': State, o: Obj, why: Why, nrec: Rec)
    requires Pc(s, t) == Inflate(o, why, IGetTable)
    requires s' == Goto(NewRecord(s, o, nrec), t, Inflate(o, why, ILock(nrec)))
    requires o !in s.recs.table && nrec !in s.recs.robj && RecOk(s, nrec) && WaitOk(s, nrec)
    ensures Guar(s, t, s')
  {
    NewRecordChanges(s, t, s', o, nrec);
  }

  lemma NewRecordChanges(s: State, t: Tid, s': State, o: Obj, nrec: Rec)
    requires s'.recs == NewRecord(s, o, nrec).recs
    requires o !in s.recs.table && nrec !in s.recs.robj && RecOk(s, nrec) && WaitOk(s, nrec)
    ensures GuarRecords(s, t, s')
  {
    forall r: Rec ensures RecordChange(s, t, s', r) { }
  }

  lemma KeepNewRecord(s: State, t: Tid, s': State, o: Obj, why: Why, nrec: Rec)
    requires Ready(s, t) && Pc(s, t) == Inflate(o, why, IGetTable) && s' == InflateNext(s, t, o, why, IGetTable, nrec)
    requires o !in s.recs.table && nrec !in s.recs.robj
    ensures Kept(s, t, s')
  {
    assert RecOk(s, nrec) && WaitOk(s, nrec);
    NewRecordGuar(s, t, s', o, why, nrec);
    NewRecordWords(s, t, s', o, why, nrec);
    NewRecordShared(s, t, s', o, why, nrec);
    FlcPart(s, t, s');
    NewRecordBalance(s, t, s', o, why, nrec);
    NewRecordSelf(s, t, s', o, why, nrec);
  }

  lemma NewRecordSelf(s: State, t: Tid, s': State, o: Obj, why: Why, nrec: Rec)
    requires t != 0 && ThreadOk(s, t) && RecOk(s, nrec) && Pc(s, t) == Inflate(o, why, IGetTable)
    requires s' == Goto(NewRecord(s, o, nrec), t, Inflate(o, why, ILock(nrec)))
    requires o !in s.recs.table && nrec !in s.recs.robj
    ensures forall u: Tid :: u == t ==> ThreadOk(s', u)
  {
  }

  lemma NewRecordBalance(s: State, t: Tid, s': State, o: Obj, why: Why, nrec: Rec)
    requires (forall o': Obj :: WordOk(s, o')) && (forall o': Obj :: TableOk(s, o'))
    requires (forall o': Obj :: BalanceOk(s, t, o')) && Pc(s, t) == Inflate(o, why, IGetTable)
    requires s' == Goto(NewRecord(s, o, nrec), t, Inflate(o, why, ILock(nrec)))
    requires o !in s.recs.table && nrec !in s.recs.robj
    ensures forall o': Obj :: BalanceOk(s', t, o')
    ensures forall o': Obj :: DepthStep(s, t, s', o')
  {
    forall o': Obj ensures BalanceOk(s', t, o') {
      assert BalanceOk(s, t, o') && WordOk(s, o') && TableOk(s, o');
    }
  }

  lemma KeepInflateLock(s: State, t: Tid, s': State, o: Obj, why: Why, r: Rec)
    requires Ready(s, t) && Pc(s, t) == Inflate(o, why, ILock(r)) && Mutex(s, r) == 0
    requires s' == Goto(SetMutex(s, r, t), t, Inflate(o, why, IOwner(r)))
    ensures Kept(s, t, s')
  {
    assert TableOk(s, o) && RecOk(s, r) && BalanceOk(s, t, o);
    RecordStore(s, t, s', r, Inflate(o, why, IOwner(r)), o, 0);
  }

  lemma KeepInflateOwner(s: State, t: Tid, s': State, o: Obj, why: Why, r: Rec)
    requires Ready(s, t) && Pc(s, t) == Inflate(o, why, IOwner(r))
    requires s' == Goto(SetOwner(s, r, t), t, Inflate(o, why, IRead(r)))
    ensures Kept(s, t, s')
  {
    assert TableOk(s, o) && RecOk(s, r) && BalanceOk(s, t, o);
    RecordStore(s, t, s', r, Inflate(o, why, IRead(r)), o, 0);
  }

  lemma KeepInflateCount(s: State, t: Tid, s': State, o: Obj, why: Why, r: Rec, c: int)
    requires Ready(s, t) && Pc(s, t) == Inflate(o, why, ICount(r, c))
    requires s' == Goto(SetCount(s, r, c), t, Inflate(o, why, ISet(r)))
    ensures Kept(s, t, s')
  {
    assert TableOk(s, o) && RecOk(s, r) && BalanceOk(s, t, o) && WordOk(s, o);
    RecordStore(s, t, s', r, Inflate(o, why, ISet(r)), o, 0);
  }

  lemma InflateBalance(s: State, t: Tid, s': State, o: Obj, r: Rec, p': PC)
    requires WritesWord(s, t, s', o, Fat(r), p', 0)
    requires OwnThin(Lw(s, o), t) && Mutex(s, r) == t && Count(s, r) == Lw(s, o).count
    requires !Pc(s, t).Park? && !p'.Park?
    requires forall o': Obj :: Expected(p', Held(s, t, o'), o') == Expected(Pc(s, t), Held(s, t, o'), o')
    requires forall o': Obj :: BalanceOk(s, t, o')
    ensures forall o': Obj :: BalanceOk(s', t, o')
    ensures forall o': Obj :: DepthStep(s, t, s', o')
  {
    forall o': Obj ensures BalanceOk(s', t, o') {
      assert BalanceOk(s, t, o');
    }
  }

  lemma KeepInflateSet(s: State, t: Tid, s': State, o: Obj, why: Why, r: Rec)
    requires Ready(s, t) && Pc(s, t) == Inflate(o, why, ISet(r)) && s' == InflateNext(s, t, o, why, ISet(r), 0)
    ensures Kept(s, t, s')
  {
    var p' := AfterInflate(o, r, why);
    WordFrame(s, t, s', o, Fat(r), p', 0);
    InflateSetShared(s, t, s', o, why, r, p');
    InflateSetSelf(s, t, s', o, why, r, p');
    InflateBalance(s, t, s', o, r, p');
  }

  lemma InflateSetPending(s: State, t: Tid, s': State, o: Obj, why: Why, r: Rec, p': PC)
    requires Pc(s, t) == Inflate(o, why, ISet(r)) && p' == AfterInflate(o, r, why)
    requires WritesWord(s, t, s', o, Fat(r), p', 0)
    ensures forall o': Obj :: Pending(s, o', t) ==> Pending(s', o', t)
  {
    WordFrameOnly(s, t, s', o, Fat(r), p', 0);
  }

  lemma InflateSetShared(s: State, t: Tid, s': State, o: Obj, why: Why, r: Rec, p': PC)
    requires t != 0 && SharedInv(s) && Pc(s, t) == Inflate(o, why, ISet(r)) && p' == AfterInflate(o, r, why)
    requires WritesWord(s, t, s', o, Fat(r), p', 0) && OwnThin(Lw(s, o), t) && RecordOf(s, o, r)
    ensures SharedInv(s') && GuarPending(s, t, s')
  {
    InflateSetPending(s, t, s', o, why, r, p');
    WordShared(s, t, s', o, Fat(r), p', 0);
  }

  lemma InflateSetSelf(s: State, t: Tid, s': State, o: Obj, why: Why, r: Rec, p': PC)
    requires ThreadOk(s, t) && Pc(s, t) == Inflate(o, why, ISet(r)) && p' == AfterInflate(o, r, why)
    requires WritesWord(s, t, s', o, Fat(r), p', 0)
    ensures forall u: Tid :: u == t ==> ThreadOk(s', u)
  {
    WordFrameOnly(s, t, s', o, Fat(r), p', 0);
  }

  lemma InflateKept(s: State, t: Tid, s': State)
    requires Ready(s, t) && InflateStep(s, t, s')
    ensures Kept(s, t, s')
  {
    var Inflate(o, why, st) := Pc(s, t);
    var nrec :| InflateEnabled(s, st, nrec) && s' == InflateNext(s, t, o, why, st, nrec);
    match st
    case ILock(r) => KeepInflateLock(s, t, s', o, why, r);
    case IOwner(r) => KeepInflateOwner(s, t, s', o, why, r);
    case ICount(r, c) => KeepInflateCount(s, t, s', o, why, r, c);
    case ISet(r) => KeepInflateSet(s, t, s', o, why, r);
    case IGetTable =>
      if o in s.recs.table { KeepInflateFound(s, t, s', o, why); }
      else { KeepNewRecord(s, t, s', o, why, nrec); }
    case IGetRead => KeepInflateGet(s, t, s', o, why);
    case IRead(r) =>
      assert ThreadOk(s, t);
      KeepInflateRead(s, t, s', o, why, r);
  }

  lemma OverflowKept(s: State, t: Tid, s': State)
    requires Ready(s, t) && OverflowStep(s, t, s')
    ensures Kept(s, t, s')
  {
    var Overflowed(o, r) := Pc(s, t);
    RecordOfWord(s, o, r);
    assert RecOk(s, r) && BalanceOk(s, t, o);
    RecordStore(s, t, s', r, Notify(o, ROverflow, NLock), o, 0);
  }

  // ---------------------------------------------------------------- notify_flc_waiters

  lemma KeepNotifyLock(s: State, t: Tid, s': State, o: Obj, ret: Ret)
    requires Ready(s, t) && Pc(s, t) == Notify(o, ret, NLock) && Lock(s, t) == 0
    requires s' == Goto(SetLock(s, t, t), t, Notify(o, ret, NLoop(0)))
    ensures Kept(s, t, s')
  {
    var p' := Notify(o, ret, NLoop(0));
    FlcWriteFrame(s, t, s', p', o, 0);
    LockFrame(s, t, s', t, p');
    FlcStore(s, t, s', p', o, 0);
  }

  lemma KeepNotifyMove(s: State, t: Tid, s': State, o: Obj, ret: Ret, n: NotifyStage)
    requires Ready(s, t) && Pc(s, t) == Notify(o, ret, n) && (n.NLoop? || n.NWord?) && s' == NotifyNext(s, t, o, ret, n)
    ensures Kept(s, t, s')
  {
    assert FlcOk(s, t);
    if n.pos < |List(s, t)| {
      assert EntryOk(s, t, n.pos);
    }
    InnerMove(s, t, s');
  }

  lemma WakeFrame(s: State, t: Tid, s': State, o: Obj, ret: Ret, pos: int)
    requires Ready(s, t) && Pc(s, t) == Notify(o, ret, NWake(pos)) && s' == NotifyNext(s, t, o, ret, NWake(pos))
    requires GuarThreads(s, t, s')
    ensures GuarFlc(s, t, s') && FlcOk(s', t)
  {
    assert FlcOk(s, t) && EntryOk(s, t, pos);
    assert forall i: Tid :: ListChange(s, t, s', i);
    assert forall w: Tid :: FobjChange(s, t, s', w);
    forall j | 0 <= j < |List(s', t)| ensures EntryOk(s', t, j) {
      assert EntryOk(s, t, j);
      var w := List(s, t)[j];
      assert w != t ==> Pc(s', w) == Pc(s, w);
    }
  }

  lemma KeepNotifyWake(s: State, t: Tid, s': State, o: Obj, ret: Ret, pos: int)
    requires Ready(s, t) && Pc(s, t) == Notify(o, ret, NWake(pos)) && s' == NotifyNext(s, t, o, ret, NWake(pos))
    ensures Kept(s, t, s')
  {
    var p' := Notify(o, ret, NLoop(pos + 1));
    var v := List(s, t)[pos];
    assert FlcOk(s, t) && EntryOk(s, t, pos);
    FlcWriteFrame(s, t, s', p', o, 0);
    WakeFrame(s, t, s', o, ret, pos);
    forall i: Tid | i != 0 && i != t ensures FlcUntouched(s, t, s', i) {
      assert FlcOk(s, i);
      if t in List(s, i) { ListMember(s, i, t); }
      if v in List(s, i) { ListMember(s, i, v); }
    }
    FlcOthers(s, t, s', t);
    FlcStore(s, t, s', p', o, 0);
  }

  lemma ClearFrame(s: State, t: Tid, s': State, o: Obj, ret: Ret)
    requires Ready(s, t) && Pc(s, t) == Notify(o, ret, NClear) && s' == NotifyNext(s, t, o, ret, NClear)
    ensures GuarFlc(s, t, s') && FlcOk(s', t)
  {
    assert FlcOk(s, t);
    forall w | w in List(s, t) ensures Fobj(s, w) == None {
      var j :| 0 <= j < |List(s, t)| && List(s, t)[j] == w;
      assert EntryOk(s, t, j);
    }
    assert forall i: Tid :: ListChange(s, t, s', i);
    assert forall w: Tid :: FobjChange(s, t, s', w);
  }

  lemma KeepNotifyClear(s: State, t: Tid, s': State, o: Obj, ret: Ret)
    requires Ready(s, t) && Pc(s, t) == Notify(o, ret, NClear) && s' == NotifyNext(s, t, o, ret, NClear)
    ensures Kept(s, t, s')
  {
    var p' := Notify(o, ret, NUnlock);
    FlcWriteFrame(s, t, s', p', o, 0);
    ClearFrame(s, t, s', o, ret);
    forall i: Tid | i != 0 && i != t ensures FlcUntouched(s, t, s', i) {
      assert FlcOk(s, i);
      if t in List(s, i) { ListMember(s, i, t); }
    }
    FlcOthers(s, t, s', t);
    FlcStore(s, t, s', p', o, 0);
  }

  lemma KeepNotifyUnlock(s: State, t: Tid, s': State, o: Obj, ret: Ret)
    requires Ready(s, t) && Pc(s, t) == Notify(o, ret, NUnlock) && s' == AfterNotify(SetLock(s, t, 0), t, o, ret)
    ensures Kept(s, t, s')
  {
    var p' := if ret.RWait? then Wait(o, WAdd(ret.rec)) else Idle;
    var d := RetAdjust(ret);
    FlcWriteFrame(s, t, s', p', o, d);
    LockFrame(s, t, s', t, p');
    FlcStore(s, t, s', p', o, d);
  }

  lemma NotifyFlcKept(s: State, t: Tid, s': State)
    requires Ready(s, t) && NotifyFlcStep(s, t, s')
    ensures Kept(s, t, s')
  {
    var Notify(o, ret, n) := Pc(s, t);
    match n
    case NLock => KeepNotifyLock(s, t, s', o, ret);
    case NLoop(_) => KeepNotifyMove(s, t, s', o, ret, n);
    case NWord(_) => KeepNotifyMove(s, t, s', o, ret, n);
    case NWake(pos) => KeepNotifyWake(s, t, s', o, ret, pos);
    case NClear => KeepNotifyClear(s, t, s', o, ret);
    case NUnlock => KeepNotifyUnlock(s, t, s', o, ret);
  }

  // ---------------------------------------------------------------- lock_monitor_exit

  lemma KeepExitRead(s: State, t: Tid, s': State, o: Obj)
    requires Ready(s, t) && Pc(s, t) == Exit(o, XRead) && s' == AfterExitRead(s, t, o)
    ensures Kept(s, t, s')
  {
    var w := Lw(s, o);
    if w == Thin(t, 0) { KeepExitBranch(s, t, s', o, XStore); }
    else if OwnThin(w, t) { assert WordOk(s, o); KeepExitBranch(s, t, s', o, XDecRead); }
    else if w.Fat? { KeepExitBranch(s, t, s', o, XOwner(w.rec)); }
    else { PlainMove(s, t, s'); }
  }

  lemma KeepExitBranch(s: State, t: Tid, s': State, o: Obj, x: ExitStage)
    requires Ready(s, t) && Pc(s, t) == Exit(o, XRead) && s' == Goto(s, t, Exit(o, x)) && ExitOk(s, t, o, x)
    requires x.XStore? || x.XDecRead? || x.XOwner?
    ensures Kept(s, t, s')
  {
    PlainMove(s, t, s');
  }

  lemma KeepExitMove(s: State, t: Tid, s': State, o: Obj, x: ExitStage)
    requires Ready(s, t) && Pc(s, t) == Exit(o, x) && s' == ExitNext(s, t, o, x)
    requires x.XDecRead? || x.XOwner? || (x.XCount? && Count(s, x.r) == 0)
    ensures Kept(s, t, s')
  {
    if x.XOwner? {
      RecordOfWord(s, o, x.r);
      assert RecOk(s, x.r);
    }
    PlainMove(s, t, s');
  }

  lemma KeepExitStore(s: State, t: Tid, s': State, o: Obj)
    requires Ready(s, t) && Pc(s, t) == Exit(o, XStore) && s' == Goto(SetLw(s, o, UNLOCKED), t, Exit(o, XBit))
    ensures Kept(s, t, s')
  {
    assert BalanceOk(s, t, o);
    ThinStore(s, t, s', o, UNLOCKED, Exit(o, XBit), 0);
  }

  lemma KeepDecWrite(s: State, t: Tid, s': State, o: Obj, w: Word)
    requires Ready(s, t) && Pc(s, t) == Exit(o, XDecWrite(w)) && s' == Exited(SetLw(s, o, Decremented(w)), t, o)
    ensures Kept(s, t, s')
  {
    assert BalanceOk(s, t, o) && WordOk(s, o);
    ThinStore(s, t, s', o, Decremented(w), Idle, -1);
  }

  /** Without the FLC bit there is nobody in the list, and nobody about to enter it. */
  lemma KeepExitBit(s: State, t: Tid, s': State, o: Obj)
    requires Ready(s, t) && Pc(s, t) == Exit(o, XBit) && s' == ExitNext(s, t, o, XBit)
    ensures Kept(s, t, s')
  {
    if Bit(s, t) {
      InnerMove(s, t, s');
    } else {
      FlcWriteFrame(s, t, s', Idle, o, -1);
      ExitUnseenFlc(s, t, s', o);
      WordPartSame(s, s');
      RecPartSame(s, t, s');
      WaitPart(s, t, s');
      KeepExitBitBalance(s, t, s', o);
    }
  }

  lemma ExitUnseenFlc(s: State, t: Tid, s': State, o: Obj)
    requires t != 0 && SharedInv(s) && Pc(s, t) == Exit(o, XBit) && s' == Exited(s, t, o) && !Bit(s, t)
    requires GuarThreads(s, t, s')
    ensures forall i: Tid :: i != 0 ==> FlcOk(s', i)
  {
    forall i: Tid | i != 0 ensures FlcOk(s', i) {
      assert FlcOk(s, i);
      if i != t {
        if t in List(s, i) { ListMember(s, i, t); }
        FlcFrame(s, t, s', i);
      }
    }
  }

  lemma KeepExitBitBalance(s: State, t: Tid, s': State, o: Obj)
    requires Pc(s, t) == Exit(o, XBit) && s' == Exited(s, t, o)
    requires forall o': Obj :: BalanceOk(s, t, o')
    ensures forall o': Obj :: BalanceOk(s', t, o')
    ensures forall o': Obj :: DepthStep(s, t, s', o')
  {
    forall o': Obj ensures BalanceOk(s', t, o') {
      assert BalanceOk(s, t, o');
    }
  }

  lemma KeepExitCount(s: State, t: Tid, s': State, o: Obj, r: Rec)
    requires Ready(s, t) && Pc(s, t) == Exit(o, XCount(r)) && Count(s, r) != 0
    requires s' == Exited(SetCount(s, r, Count(s, r) - 1), t, o)
    ensures Kept(s, t, s')
  {
    RecordOfWord(s, o, r);
    assert RecOk(s, r) && BalanceOk(s, t, o);
    RecordStore(s, t, s', r, Idle, o, -1);
  }

  lemma KeepExitClear(s: State, t: Tid, s': State, o: Obj, r: Rec)
    requires Ready(s, t) && Pc(s, t) == Exit(o, XClear(r)) && s' == Goto(SetOwner(s, r, 0), t, Exit(o, XUnlock(r)))
    ensures Kept(s, t, s')
  {
    RecordOfWord(s, o, r);
    assert RecOk(s, r) && BalanceOk(s, t, o);
    RecordStore(s, t, s', r, Exit(o, XUnlock(r)), o, 0);
  }

  lemma KeepExitUnlock(s: State, t: Tid, s': State, o: Obj, r: Rec)
    requires Ready(s, t) && Pc(s, t) == Exit(o, XUnlock(r)) && s' == Exited(SetMutex(s, r, 0), t, o)
    ensures Kept(s, t, s')
  {
    RecordOfWord(s, o, r);
    assert RecOk(s, r) && BalanceOk(s, t, o);
    RecordStore(s, t, s', r, Idle, o, -1);
  }

  lemma ExitKept(s: State, t: Tid, s': State)
    requires Ready(s, t) && ExitStep(s, t, s')
    ensures Kept(s, t, s')
  {
    var Exit(o, x) := Pc(s, t);
    match x
    case XRead => KeepExitRead(s, t, s', o);
    case XStore => KeepExitStore(s, t, s', o);
    case XBit => KeepExitBit(s, t, s', o);
    case XDecWrite(w) => KeepDecWrite(s, t, s', o, w);
    case XCount(r) => if Count(s, r) != 0 { KeepExitCount(s, t, s', o, r); } else { KeepExitMove(s, t, s', o, x); }
    case XClear(r) => KeepExitClear(s, t, s', o, r);
    case XUnlock(r) => KeepExitUnlock(s, t, s', o, r);
    case _ => KeepExitMove(s, t, s', o, x);
  }

  // ---------------------------------------------------------------- wait and notify

  lemma KeepWaitRead(s: State, t: Tid, s': State, o: Obj)
    requires Ready(s, t) && Pc(s, t) == Wait(o, WRead) && s' == AfterWaitRead(s, t, o)
    ensures Kept(s, t, s')
  {
    assert WordOk(s, o);
    PlainMove(s, t, s');
  }

  lemma KeepWaitOwner(s: State, t: Tid, s': State, o: Obj, r: Rec)
    requires Ready(s, t) && Pc(s, t) == Wait(o, WOwner(r)) && s' == WaitNext(s, t, o, WOwner(r))
    ensures Kept(s, t, s')
  {
    RecordOfWord(s, o, r);
    assert RecOk(s, r);
    PlainMove(s, t, s');
  }

  lemma KeepWaitAdd(s: State, t: Tid, s': State, o: Obj, r: Rec)
    requires Ready(s, t) && Pc(s, t) == Wait(o, WAdd(r))
    requires s' == Goto(SetWaiters(s, r, Waiters(s, r) + [t]), t, Wait(o, WSave(r)))
    ensures Kept(s, t, s')
  {
    assert WaitOk(s, r);
    WaitersStore(s, t, s', o, r, Waiters(s, r) + [t], Wait(o, WSave(r)));
  }

  lemma KeepWaitSave(s: State, t: Tid, s': State, o: Obj, r: Rec)
    requires Ready(s, t) && Pc(s, t) == Wait(o, WSave(r))
    requires s' == Goto(SetCount(s, r, 0), t, Park(o, r, Count(s, r), PClear))
    ensures Kept(s, t, s')
  {
    RecordOfWord(s, o, r);
    assert RecOk(s, r) && BalanceOk(s, t, o);
    RecordStore(s, t, s', r, Park(o, r, Count(s, r), PClear), o, 0);
  }

  lemma WaitKept(s: State, t: Tid, s': State)
    requires Ready(s, t) && WaitStep(s, t, s')
    ensures Kept(s, t, s')
  {
    var Wait(o, w) := Pc(s, t);
    match w
    case WAdd(r) => KeepWaitAdd(s, t, s', o, r);
    case WSave(r) => KeepWaitSave(s, t, s', o, r);
    case WReset(_, _) => SignalReset(s, t, s');
    case WRead => KeepWaitRead(s, t, s', o);
    case WOwner(r) => KeepWaitOwner(s, t, s', o, r);
    case _ => ReportMove(s, t, s');
  }

  lemma KeepParkClear(s: State, t: Tid, s': State, o: Obj, r: Rec, saved: int)
    requires Ready(s, t) && Pc(s, t) == Park(o, r, saved, PClear)
    requires s' == Goto(SetOwner(s, r, 0), t, Park(o, r, saved, PUnlock))
    ensures Kept(s, t, s')
  {
    RecordOfWord(s, o, r);
    assert RecOk(s, r) && BalanceOk(s, t, o);
    RecordStore(s, t, s', r, Park(o, r, saved, PUnlock), o, 0);
  }

  lemma KeepParkUnlock(s: State, t: Tid, s': State, o: Obj, r: Rec, saved: int)
    requires Ready(s, t) && Pc(s, t) == Park(o, r, saved, PUnlock)
    requires s' == Goto(SetMutex(s, r, 0), t, Park(o, r, saved, PSleep))
    ensures Kept(s, t, s')
  {
    RecordOfWord(s, o, r);
    assert RecOk(s, r) && BalanceOk(s, t, o);
    RecordStore(s, t, s', r, Park(o, r, saved, PSleep), o, 0);
  }

  lemma KeepParkLock(s: State, t: Tid, s': State, o: Obj, r: Rec, saved: int)
    requires Ready(s, t) && Pc(s, t) == Park(o, r, saved, PLock) && Mutex(s, r) == 0
    requires s' == Goto(SetMutex(s, r, t), t, Park(o, r, saved, POwner))
    ensures Kept(s, t, s')
  {
    RecordOfWord(s, o, r);
    assert RecOk(s, r) && BalanceOk(s, t, o);
    RecordStore(s, t, s', r, Park(o, r, saved, POwner), o, 0);
  }

  lemma KeepParkOwner(s: State, t: Tid, s': State, o: Obj, r: Rec, saved: int)
    requires Ready(s, t) && Pc(s, t) == Park(o, r, saved, POwner)
    requires s' == Goto(SetOwner(s, r, t), t, Park(o, r, saved, PRemove))
    ensures Kept(s, t, s')
  {
    RecordOfWord(s, o, r);
    assert RecOk(s, r) && BalanceOk(s, t, o);
    RecordStore(s, t, s', r, Park(o, r, saved, PRemove), o, 0);
  }

  lemma KeepParkRestore(s: State, t: Tid, s': State, o: Obj, r: Rec, saved: int)
    requires Ready(s, t) && Pc(s, t) == Park(o, r, saved, PRestore)
    requires s' == Goto(SetCount(s, r, saved), t, Wait(o, WSignaled(r)))
    ensures Kept(s, t, s')
  {
    RecordOfWord(s, o, r);
    assert RecOk(s, r) && BalanceOk(s, t, o);
    RecordStore(s, t, s', r, Wait(o, WSignaled(r)), o, 0);
  }

  lemma KeepParkSleep(s: State, t: Tid, s': State, o: Obj, r: Rec, saved: int)
    requires Ready(s, t) && Pc(s, t) == Park(o, r, saved, PSleep) && s' == Goto(s, t, Park(o, r, saved, PLock))
    ensures Kept(s, t, s')
  {
    StillShared(s, t, s', Pc(s, t), Pc(s', t));
    BalancePart(s, t, s');
  }

  lemma KeepParkRemove(s: State, t: Tid, s': State, o: Obj, r: Rec, saved: int)
    requires Ready(s, t) && Pc(s, t) == Park(o, r, saved, PRemove)
    requires s' == Goto(SetWaiters(s, r, Without(Waiters(s, r), t)), t, Park(o, r, saved, PRestore))
    ensures Kept(s, t, s')
  {
    assert WaitOk(s, r);
    WithoutDistinct(Waiters(s, r), t);
    WaitersStore(s, t, s', o, r, Without(Waiters(s, r), t), Park(o, r, saved, PRestore));
  }

  lemma ParkKept(s: State, t: Tid, s': State)
    requires Ready(s, t) && ParkStep(s, t, s')
    ensures Kept(s, t, s')
  {
    var Park(o, r, saved, q) := Pc(s, t);
    match q
    case PSleep => KeepParkSleep(s, t, s', o, r, saved);
    case PRemove => KeepParkRemove(s, t, s', o, r, saved);
    case PClear => KeepParkClear(s, t, s', o, r, saved);
    case PUnlock => KeepParkUnlock(s, t, s', o, r, saved);
    case PLock => KeepParkLock(s, t, s', o, r, saved);
    case POwner => KeepParkOwner(s, t, s', o, r, saved);
    case PRestore => KeepParkRestore(s, t, s', o, r, saved);
  }

  lemma KeepSignalLoop(s: State, t: Tid, s': State, o: Obj, one: bool, r: Rec, pos: int, before: seq<bool>)
    requires Ready(s, t) && Pc(s, t) == Signal(o, one, SLoop(r, pos, before))
    requires s' == AfterSignalLoop(s, t, o, one, r, pos, before)
    ensures Kept(s, t, s')
  {
    if pos < |Waiters(s, r)| && !Signaled(s, Waiters(s, r)[pos]) {
      KeepSignalOne(s, t, s', o, one, r, pos, before);
    } else {
      PlainMove(s, t, s');
    }
  }

  lemma KeepSignalOne(s: State, t: Tid, s': State, o: Obj, one: bool, r: Rec, pos: int, before: seq<bool>)
    requires Ready(s, t) && Pc(s, t) == Signal(o, one, SLoop(r, pos, before)) && 0 <= pos < |Waiters(s, r)|
    requires !Signaled(s, Waiters(s, r)[pos]) && s' == AfterSignalLoop(s, t, o, one, r, pos, before)
    ensures Kept(s, t, s')
  {
    assert WaitOk(s, r);
    SignalStore(s, t, s', Waiters(s, r)[pos]);
  }

  lemma KeepSignalRead(s: State, t: Tid, s': State, o: Obj, one: bool)
    requires Ready(s, t) && Pc(s, t) == Signal(o, one, SRead) && s' == AfterSignalRead(s, t, o, one)
    ensures Kept(s, t, s')
  {
    PlainMove(s, t, s');
  }

  lemma KeepSignalOwner(s: State, t: Tid, s': State, o: Obj, one: bool, r: Rec)
    requires Ready(s, t) && Pc(s, t) == Signal(o, one, SOwner(r)) && s' == SignalNext(s, t, o, one, SOwner(r))
    ensures Kept(s, t, s')
  {
    RecordOfWord(s, o, r);
    assert RecOk(s, r);
    PlainMove(s, t, s');
  }

  lemma SignalKept(s: State, t: Tid, s': State)
    requires Ready(s, t) && SignalStep(s, t, s')
    ensures Kept(s, t, s')
  {
    var Signal(o, one, g) := Pc(s, t);
    match g
    case SLoop(r, pos, before) => KeepSignalLoop(s, t, s', o, one, r, pos, before);
    case SRead => KeepSignalRead(s, t, s', o, one);
    case SOwner(r) => KeepSignalOwner(s, t, s', o, one, r);
  }

  // ---------------------------------------------------------------- starting and recycling

  lemma BeginKept(s: State, t: Tid, s': State)
    requires Ready(s, t) && BeginStep(s, t, s')
    ensures Kept(s, t, s')
  {
    PlainMove(s, t, s');
  }

  /** No part of the invariant looks at the interrupted flags. */
  lemma InterruptKeepsInv(s: State, t: Tid, b: bool)
    requires Inv(s)
    ensures Inv(SetInterrupted(s, t, b))
  {
    var s' := SetInterrupted(s, t, b);
    InterruptShared(s, t, b);
    forall u: Tid | u != 0 ensures ThreadOk(s', u) {
      assert ThreadOk(s, u);
      Stable(s, if u == 1 then 2 else 1, s', u);
    }
    forall u: Tid, o: Obj | u != 0 ensures BalanceOk(s', u, o) {
      assert BalanceOk(s, u, o);
    }
  }

  lemma InterruptShared(s: State, t: Tid, b: bool)
    requires Inv(s)
    ensures SharedInv(SetInterrupted(s, t, b))
    ensures Guar(s, 1, SetInterrupted(s, t, b)) && Guar(s, 2, SetInterrupted(s, t, b))
  {
    var s' := SetInterrupted(s, t, b);
    WordPartSame(s, s');
    RecPartSame(s, 1, s');
    WaitPart(s, 1, s');
    assert forall o: Obj :: Pending(s, o, 1) ==> Pending(s', o, 1);
    FlcPart(s, 1, s');
  }

  /** Nobody is queued on a finished thread. */
  lemma FinishedAlone(s: State, t: Tid)
    requires Ready(s, t) && Finished(s, t)
    ensures List(s, t) == []
    ensures forall o: Obj :: !Pending(s, o, t)
  {
    forall o: Obj ensures !Pending(s, o, t) {
      assert BalanceOk(s, t, o) && WordOk(s, o) && Held(s, t, o) == 0;
    }
    assert FlcOk(s, t);
    if List(s, t) != [] { ListMember(s, t, List(s, t)[0]); }
  }

  /** The reuse of a finished thread keeps the invariant, even with a contender inside its flc_lock. */
  lemma RecycleKeepsInv(s: State, t: Tid)
    requires Inv(s) && t != 0 && Finished(s, t)
    ensures Inv(Recycled(s, t))
  {
    var s' := Recycled(s, t);
    assert ThreadOk(s, t);
    FinishedAlone(s, t);
    RecycleShared(s, t);
    RecycleBalance(s, t);
    forall u: Tid | u != 0 ensures ThreadOk(s', u) {
      assert ThreadOk(s, u) && FlcOk(s, u) && ThreadOk(s, t);
      RecycleThread(s, t, u);
    }
  }

  lemma RecycleBalance(s: State, t: Tid)
    requires forall u: Tid, o: Obj :: u != 0 ==> BalanceOk(s, u, o)
    ensures forall u: Tid, o: Obj :: u != 0 ==> BalanceOk(Recycled(s, t), u, o)
  {
    forall u: Tid, o: Obj | u != 0 ensures BalanceOk(Recycled(s, t), u, o) {
      assert BalanceOk(s, u, o);
    }
  }

  lemma RecycleShared(s: State, t: Tid)
    requires Inv(s) && t != 0 && Finished(s, t) && List(s, t) == []
    ensures SharedInv(Recycled(s, t))
  {
    var s' := Recycled(s, t);
    WordPartSame(s, s');
    RecPartSame(s, t, s');
    WaitPart(s, t, s');
    forall i: Tid | i != 0 ensures FlcOk(s', i) {
      assert FlcOk(s, i);
      if i != t {
        if t in List(s, i) { ListMember(s, i, t); }
        FlcFrame(s, t, s', i);
      }
    }
  }

  lemma RecycleThread(s: State, t: Tid, u: Tid)
    requires t != 0 && u != 0 && ThreadOk(s, u) && FlcOk(s, u) && List(s, t) == []
    requires Pc(s, t) == Idle && !Signaled(s, t) && (forall o: Obj :: !Pending(s, o, t))
    requires forall r: Rec :: WaitOk(s, r)
    ensures ThreadOk(Recycled(s, t), u)
  {
    if Pc(s, u).Flc? {
      RecycleFlc(s, t, u, Pc(s, u).o, Pc(s, u).i, Pc(s, u).f);
    } else if Pc(s, u).Inflate? || Pc(s, u).Notify? {
      RecycleInflate(s, t, u);
    } else {
      RecycleElsewhere(s, t, u);
    }
  }

  lemma RecycleInflate(s: State, t: Tid, u: Tid)
    requires u != 0 && PcOk(s, u) && FlcOk(s, u) && Pc(s, t) == Idle && (Pc(s, u).Inflate? || Pc(s, u).Notify?)
    ensures PcOk(Recycled(s, t), u)
  {
    var s', a := Recycled(s, t), if u == 1 then 2 else 1;
    RecycleList(s, t, u);
    match Pc(s, u)
    case Inflate(o, why, st) => StableInflate(s, a, s', u, o, why, st);
    case Notify(o, ret, n) => StableNotify(s, a, s', u, o, ret, n);
  }

  lemma RecycleElsewhere(s: State, t: Tid, u: Tid)
    requires u != 0 && PcOk(s, u) && !Pc(s, u).Flc? && !Pc(s, u).Inflate? && !Pc(s, u).Notify?
    requires !Signaled(s, t) && forall r: Rec :: WaitOk(s, r)
    ensures PcOk(Recycled(s, t), u)
  {
    var s', a := Recycled(s, t), if u == 1 then 2 else 1;
    match Pc(s, u)
    case Idle =>
    case Enter(o, e) => StableEnter(s, a, s', u, o, e);
    case Overflowed(o, r) => StableWait(s, a, s', u, o, WAdd(r));
    case Exit(o, x) => StableExit(s, a, s', u, o, x);
    case Wait(o, w) => StableWait(s, a, s', u, o, w);
    case Park(o, r, saved, q) => StablePark(s, a, s', u, o, r, saved, q);
    case Signal(o, one, g) =>
      assert forall w: Tid :: SignalChange(s, a, s', w);
      StableSignal(s, a, s', u, o, one, g);
  }

  lemma RecycleList(s: State, t: Tid, u: Tid)
    requires FlcOk(s, u) && Pc(s, t) == Idle && u != t
    ensures ListKept(s, Recycled(s, t), u)
  {
    forall j | 0 <= j < |List(s, u)|
      ensures List(s, u)[j] != t
    {
      assert EntryOk(s, u, j);
    }
  }

  lemma RecycleFlc(s: State, t: Tid, u: Tid, o: Obj, i: Tid, f: FlcStage)
    requires u != t && FlcStageOk(s, u, o, i, f) && List(s, t) == []
    requires forall o: Obj :: !Pending(s, o, t)
    ensures FlcStageOk(Recycled(s, t), u, o, i, f)
  {
  }

  // ---------------------------------------------------------------- all steps

  /** The invariant is inductive. */
  lemma StepKeepsInv(s: State, t: Tid, s': State)
    requires Inv(s) && Step(s, t, s') && Marked(s', t)
    ensures Inv(s')
  {
    if OwnStep(s, t, s') {
      OwnStepKeepsInv(s, t, s');
    } else if RecycleStep(s, t, s') {
      RecycleKeepsInv(s, t);
    } else {
      var b: bool :| s' == SetInterrupted(s, t, b);
      InterruptKeepsInv(s, t, b);
    }
  }

  lemma OwnStepKeepsInv(s: State, t: Tid, s': State)
    requires Inv(s) && OwnStep(s, t, s') && t != 0 && Marked(s', t)
    ensures Inv(s')
  {
    assert ThreadOk(s, t);
    forall o: Obj ensures BalanceOk(s, t, o) { }
    StepKept(s, t, s');
    forall u: Tid | u != 0 ensures ThreadOk(s', u) {
      assert ThreadOk(s, u);
      if u != t { Stable(s, t, s', u); }
    }
    forall u: Tid, o: Obj | u != 0 ensures BalanceOk(s', u, o) {
      assert BalanceOk(s, u, o);
      if u != t { BalanceStable(s, t, s', u, o); }
    }
  }

  lemma StepKept(s: State, t: Tid, s': State)
    requires Ready(s, t) && OwnStep(s, t, s') && Marked(s', t)
    ensures Kept(s, t, s')
  {
    if BeginStep(s, t, s') { BeginKept(s, t, s'); }
    else if EnterStep(s, t, s') { EnterKept(s, t, s'); }
    else if FlcStep(s, t, s') { FlcKept(s, t, s'); }
    else if InflateStep(s, t, s') { InflateKept(s, t, s'); }
    else if OverflowStep(s, t, s') { OverflowKept(s, t, s'); }
    else if NotifyFlcStep(s, t, s') { NotifyFlcKept(s, t, s'); }
    else if ExitStep(s, t, s') { ExitKept(s, t, s'); }
    else if WaitStep(s, t, s') { WaitKept(s, t, s'); }
    else if ParkStep(s, t, s') { ParkKept(s, t, s'); }
    else { SignalKept(s, t, s'); }
  }

  lemma InitInv()
    ensures Inv(INIT)
  {
  }

  /** The invariant holds in every state of every run, up to the first failure of the assertion at lock.cpp line 703. */
  lemma {:induction false} RunInv(run: seq<State>, actor: seq<Tid>, i: nat)
    requires IsRun(run, actor) && i < |run| && Upheld(run, i)
    ensures Inv(run[i])
  {
    if i == 0 {
      InitInv();
    } else {
      RunInv(run, actor, i - 1);
      assert StepAt(run, actor, i - 1) && AllMarked(run[i]);
      StepKeepsInv(run[i - 1], actor[i - 1], run[i]);
    }
  }
}
