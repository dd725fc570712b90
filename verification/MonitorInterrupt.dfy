/**
  An interruption that arrives between the read of the interrupted flag at lock.cpp line 1085 and
  the store at line 1086 is lost.
 */
module MonitorInterrupt {
  import opened MonitorModel
  import opened MonitorPaths
  import opened MonitorWait

  /** Whoever has found the flag clear loses an interruption that arrives now. */
  lemma InterruptDropped(s: State, t: Tid, o: Obj, r: Rec) returns (s1: State, s2: State, s3: State)
    requires t != 0 && Pc(s, t) == Wait(o, WClear(r, false))
    ensures Interrupts(s, t, s1) && Step(s, t, s1) && Step(s1, t, s2) && Step(s2, t, s3)
    ensures Pc(s3, t) == Idle && Res(s3, t) == Ok && !IsInterrupted(s3, t)
  {
    s1 := SetInterrupted(s, t, true);
    assert InterruptStep(s, t, s1);
    s2 := WaitNext(s1, t, o, WClear(r, false));
    assert WaitStep(s1, t, s2);
    s3 := WaitNext(s2, t, o, WReset(r, false));
    assert WaitStep(s2, t, s3);
  }

  // ---------------------------------------------------------------- a run that gets there

  /** Thread 1 at p, alone with object 7 and its record 1; m is inside the mutex, l inside the flc_lock. */
  ghost predicate Alone(s: State, p: PC, w: Word, m: Tid, l: Tid) {
    && Leads(INIT, s) && Pc(s, 1) == p && Lw(s, 7) == w && Mutex(s, 1) == m && Count(s, 1) == 0
    && Lock(s, 1) == l && List(s, 1) == [] && !Signaled(s, 1) && !IsInterrupted(s, 1) && 2 !in s.recs.robj
  }

  lemma WaitBegins() returns (s: State)
    ensures Alone(s, Inflate(7, BeforeWait, IGetTable), Thin(1, 0), 0, 0) && s.recs == INIT.recs
  {
    LeadsNowhere(INIT);
    s := Acquires(INIT, INIT, 1, 7);
    Calls(INIT, s, 1, Wait(7, WRead));
    s := Goto(s, 1, Wait(7, WRead));
    Waits(INIT, s, 1);
    s := WaitNext(s, 1, 7, WRead);
    Inflates(INIT, s, 1, 1);
    s := InflateNext(s, 1, 7, BeforeWait, IGetRead, 1);
  }

  lemma RecordEntered(s1: State) returns (s: State)
    requires Alone(s1, Inflate(7, BeforeWait, IGetTable), Thin(1, 0), 0, 0) && s1.recs == INIT.recs
    ensures Alone(s, Inflate(7, BeforeWait, IRead(1)), Thin(1, 0), 1, 0)
  {
    Inflates(INIT, s1, 1, 1);
    s := InflateNext(s1, 1, 7, BeforeWait, IGetTable, 1);
    Inflates(INIT, s, 1, 2);
    s := InflateNext(s, 1, 7, BeforeWait, ILock(1), 2);
    Inflates(INIT, s, 1, 2);
    s := InflateNext(s, 1, 7, BeforeWait, IOwner(1), 2);
  }

  lemma LockInflated(s1: State) returns (s: State)
    requires Alone(s1, Inflate(7, BeforeWait, IRead(1)), Thin(1, 0), 1, 0)
    ensures Alone(s, Notify(7, RWait(1), NLock), Fat(1), 1, 0)
  {
    Inflates(INIT, s1, 1, 2);
    s := InflateNext(s1, 1, 7, BeforeWait, IRead(1), 2);
    Inflates(INIT, s, 1, 2);
    s := InflateNext(s, 1, 7, BeforeWait, ICount(1, 0), 2);
    Inflates(INIT, s, 1, 2);
    s := InflateNext(s, 1, 7, BeforeWait, ISet(1), 2);
  }

  lemma NobodyNotified(s1: State) returns (s: State)
    requires Alone(s1, Notify(7, RWait(1), NLock), Fat(1), 1, 0)
    ensures Alone(s, Wait(7, WAdd(1)), Fat(1), 1, 0)
  {
    Notifies(INIT, s1, 1);
    s := NotifyNext(s1, 1, 7, RWait(1), NLock);
    Notifies(INIT, s, 1);
    s := NotifyNext(s, 1, 7, RWait(1), NLoop(0));
    Notifies(INIT, s, 1);
    s := NotifyNext(s, 1, 7, RWait(1), NClear);
    Notifies(INIT, s, 1);
    s := NotifyNext(s, 1, 7, RWait(1), NUnlock);
  }

  lemma GivenUp(s1: State) returns (s: State)
    requires Alone(s1, Wait(7, WAdd(1)), Fat(1), 1, 0)
    ensures Alone(s, Park(7, 1, 0, PSleep), Fat(1), 0, 0)
  {
    Waits(INIT, s1, 1);
    s := WaitNext(s1, 1, 7, WAdd(1));
    Waits(INIT, s, 1);
    s := WaitNext(s, 1, 7, WSave(1));
    Parks(INIT, s, 1);
    s := ParkNext(s, 1, 7, 1, 0, PClear);
    Parks(INIT, s, 1);
    s := ParkNext(s, 1, 7, 1, 0, PUnlock);
  }

  lemma TakenBack(s1: State) returns (s: State)
    requires Alone(s1, Park(7, 1, 0, PSleep), Fat(1), 0, 0)
    ensures Alone(s, Park(7, 1, 0, PRestore), Fat(1), 1, 0)
  {
    Parks(INIT, s1, 1);
    s := ParkNext(s1, 1, 7, 1, 0, PSleep);
    Parks(INIT, s, 1);
    s := ParkNext(s, 1, 7, 1, 0, PLock);
    Parks(INIT, s, 1);
    s := ParkNext(s, 1, 7, 1, 0, POwner);
    Parks(INIT, s, 1);
    s := ParkNext(s, 1, 7, 1, 0, PRemove);
  }

  lemma FlagRead(s1: State) returns (s: State)
    requires Alone(s1, Park(7, 1, 0, PRestore), Fat(1), 1, 0)
    ensures Alone(s, Wait(7, WClear(1, false)), Fat(1), 1, 0)
  {
    Parks(INIT, s1, 1);
    s := ParkNext(s1, 1, 7, 1, 0, PRestore);
    Waits(INIT, s, 1);
    s := WaitNext(s, 1, 7, WSignaled(1));
    Waits(INIT, s, 1);
    s := WaitNext(s, 1, 7, WInterrupted(1));
  }

  /** A run in which a waiting thread is interrupted, and neither reports it nor keeps the flag. */
  lemma InterruptLost() returns (s: State, s1: State, s3: State)
    ensures Leads(INIT, s) && Interrupts(s, 1, s1) && Leads(s1, s3)
    ensures Pc(s3, 1) == Idle && Res(s3, 1) == Ok && !IsInterrupted(s3, 1)
  {
    s := WaitBegins();
    s := RecordEntered(s);
    s := LockInflated(s);
    s := NobodyNotified(s);
    s := GivenUp(s);
    s := TakenBack(s);
    s := FlagRead(s);
    var s2;
    s1, s2, s3 := InterruptDropped(s, 1, 7, 1);
    LeadsNowhere(s1);
    LeadsOn(s1, s1, 1, s2);
    LeadsOn(s1, s2, 1, s3);
  }
}
