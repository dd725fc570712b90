/** Reaching one state from another, and some ways to get there. */
module MonitorPaths {
  import opened MonitorModel

  /** Some sequence of steps leads from s to s'. */
  ghost predicate Leads(s: State, s': State) {
    exists run, actor :: IsPath(run, actor) && run[0] == s && run[|run| - 1] == s'
  }

  lemma LeadsNowhere(s: State)
    ensures Leads(s, s)
  {
    assert IsPath([s], []);
  }

  lemma Extended(run: seq<State>, actor: seq<Tid>, t: Tid, s': State)
    requires IsPath(run, actor) && Step(run[|run| - 1], t, s')
    ensures IsPath(run + [s'], actor + [t])
  {
    var run', actor' := run + [s'], actor + [t];
    forall i | 0 <= i < |actor'| ensures StepAt(run', actor', i) {
      if i < |actor| { assert StepAt(run, actor, i); }
    }
  }

  lemma LeadsOn(s: State, s1: State, t: Tid, s2: State)
    requires Leads(s, s1) && Step(s1, t, s2)
    ensures Leads(s, s2)
  {
    var run, actor :| IsPath(run, actor) && run[0] == s && run[|run| - 1] == s1;
    Extended(run, actor, t, s2);
    var run' := run + [s2];
    assert run'[0] == s && run'[|run'| - 1] == s2;
  }

  lemma OnThePath(run: seq<State>, actor: seq<Tid>, k: nat)
    requires IsPath(run, actor) && k < |run|
    ensures Leads(run[0], run[k])
  {
    var run', actor' := run[..k + 1], actor[..k];
    forall i | 0 <= i < |actor'| ensures StepAt(run', actor', i) { assert StepAt(run, actor, i); }
    assert IsPath(run', actor') && run'[0] == run[0] && run'[|run'| - 1] == run[k];
  }

  // ---------------------------------------------------------------- single steps

  lemma Calls(s: State, s1: State, t: Tid, p: PC)
    requires Leads(s, s1) && t != 0 && Pc(s1, t) == Idle && IsCall(p)
    ensures Leads(s, Goto(s1, t, p))
  {
    assert BeginStep(s1, t, Goto(s1, t, p));
    LeadsOn(s, s1, t, Goto(s1, t, p));
  }

  lemma Enters(s: State, s1: State, t: Tid)
    requires Leads(s, s1) && t != 0 && Pc(s1, t).Enter? && EnterEnabled(s1, Pc(s1, t).e)
    ensures Leads(s, EnterNext(s1, t, Pc(s1, t).o, Pc(s1, t).e))
  {
    LeadsOn(s, s1, t, EnterNext(s1, t, Pc(s1, t).o, Pc(s1, t).e));
  }

  lemma Contends(s: State, s1: State, t: Tid, found: bool)
    requires Leads(s, s1) && t != 0 && Pc(s1, t).Flc? && FlcEnabled(s1, Pc(s1, t).i, Pc(s1, t).f, found)
    ensures Leads(s, FlcNext(s1, t, Pc(s1, t).o, Pc(s1, t).i, Pc(s1, t).f, found))
  {
    var s2 := FlcNext(s1, t, Pc(s1, t).o, Pc(s1, t).i, Pc(s1, t).f, found);
    assert FlcStep(s1, t, s2);
    LeadsOn(s, s1, t, s2);
  }

  lemma Inflates(s: State, s1: State, t: Tid, nrec: Rec)
    requires Leads(s, s1) && t != 0 && Pc(s1, t).Inflate? && InflateEnabled(s1, Pc(s1, t).st, nrec)
    ensures Leads(s, InflateNext(s1, t, Pc(s1, t).o, Pc(s1, t).why, Pc(s1, t).st, nrec))
  {
    var s2 := InflateNext(s1, t, Pc(s1, t).o, Pc(s1, t).why, Pc(s1, t).st, nrec);
    assert InflateStep(s1, t, s2);
    LeadsOn(s, s1, t, s2);
  }

  lemma Notifies(s: State, s1: State, t: Tid)
    requires Leads(s, s1) && t != 0 && Pc(s1, t).Notify? && NotifyEnabled(s1, t, Pc(s1, t).n)
    ensures Leads(s, NotifyNext(s1, t, Pc(s1, t).o, Pc(s1, t).ret, Pc(s1, t).n))
  {
    LeadsOn(s, s1, t, NotifyNext(s1, t, Pc(s1, t).o, Pc(s1, t).ret, Pc(s1, t).n));
  }

  lemma Exits(s: State, s1: State, t: Tid)
    requires Leads(s, s1) && t != 0 && Pc(s1, t).Exit?
    ensures Leads(s, ExitNext(s1, t, Pc(s1, t).o, Pc(s1, t).x))
  {
    LeadsOn(s, s1, t, ExitNext(s1, t, Pc(s1, t).o, Pc(s1, t).x));
  }

  lemma Waits(s: State, s1: State, t: Tid)
    requires Leads(s, s1) && t != 0 && Pc(s1, t).Wait?
    ensures Leads(s, WaitNext(s1, t, Pc(s1, t).o, Pc(s1, t).w))
  {
    LeadsOn(s, s1, t, WaitNext(s1, t, Pc(s1, t).o, Pc(s1, t).w));
  }

  lemma Parks(s: State, s1: State, t: Tid)
    requires Leads(s, s1) && t != 0 && Pc(s1, t).Park? && ParkEnabled(s1, Pc(s1, t).r, Pc(s1, t).q)
    ensures Leads(s, ParkNext(s1, t, Pc(s1, t).o, Pc(s1, t).r, Pc(s1, t).saved, Pc(s1, t).q))
  {
    LeadsOn(s, s1, t, ParkNext(s1, t, Pc(s1, t).o, Pc(s1, t).r, Pc(s1, t).saved, Pc(s1, t).q));
  }

  // ---------------------------------------------------------------- whole operations

  /** t enters the monitor of o, which nobody holds. */
  lemma Acquires(s: State, s1: State, t: Tid, o: Obj) returns (s2: State)
    requires Leads(s, s1) && t != 0 && Pc(s1, t) == Idle && Lw(s1, o) == UNLOCKED
    ensures Leads(s, s2) && s2.lw == s1.lw[o := Thin(t, 0)] && s2.pc == s1.pc[t := Idle]
    ensures s2.recs == s1.recs && s2.flc == s1.flc && s2.interrupted == s1.interrupted && s2.signaled == s1.signaled
    ensures s2.hist.held == s1.hist.held[(t, o) := Held(s1, t, o) + 1]
  {
    s2 := Goto(s1, t, Enter(o, ERead));
    Calls(s, s1, t, Enter(o, ERead));
    Enters(s, s2, t);
    s2 := EnterNext(s2, t, o, ERead);
    Enters(s, s2, t);
    s2 := EnterNext(s2, t, o, ECas(UNLOCKED));
  }

  /** t leaves the monitor of o, which it holds twice or more. */
  lemma Decrements(s: State, s1: State, t: Tid, o: Obj) returns (s2: State)
    requires Leads(s, s1) && t != 0 && Pc(s1, t) == Idle && OwnThin(Lw(s1, o), t) && Lw(s1, o).count > 0
    ensures Leads(s, s2) && s2.lw == s1.lw[o := Thin(t, Lw(s1, o).count - 1)] && s2.pc == s1.pc[t := Idle]
    ensures s2.recs == s1.recs && s2.flc == s1.flc
  {
    s2 := Goto(s1, t, Exit(o, XRead));
    Calls(s, s1, t, Exit(o, XRead));
    Exits(s, s2, t);
    s2 := ExitNext(s2, t, o, XRead);
    Exits(s, s2, t);
    s2 := ExitNext(s2, t, o, XDecRead);
    Exits(s, s2, t);
    s2 := ExitNext(s2, t, o, XDecWrite(Lw(s1, o)));
  }

  /** t leaves the monitor of o as often as it has entered it, up to the store that frees it. */
  lemma {:induction false} Frees(s: State, s1: State, t: Tid, o: Obj) returns (s2: State)
    requires Leads(s, s1) && t != 0 && Pc(s1, t) == Idle && OwnThin(Lw(s1, o), t) && Lw(s1, o).count >= 0
    ensures Leads(s, s2) && Lw(s2, o) == UNLOCKED && s2.flc == s1.flc
    ensures forall u: Tid :: u != t ==> Pc(s2, u) == Pc(s1, u)
    decreases Lw(s1, o).count
  {
    if Lw(s1, o).count == 0 {
      s2 := Goto(s1, t, Exit(o, XRead));
      Calls(s, s1, t, Exit(o, XRead));
      Exits(s, s2, t);
      s2 := ExitNext(s2, t, o, XRead);
      Exits(s, s2, t);
      s2 := ExitNext(s2, t, o, XStore);
    } else {
      s2 := Decrements(s, s1, t, o);
      s2 := Frees(s, s2, t, o);
    }
  }
}
