/**
  What a wait reports, and whom a notify reaches: for every run, up to the first failure of the
  assertion at lock.cpp line 703.
 */
module MonitorWait {
  import opened MonitorModel
  import opened MonitorInv
  import opened MonitorFrames
  import opened MonitorSteps

  // ---------------------------------------------------------------- the flags of a thread inside an operation

  ghost predicate Inside(run: seq<State>, i: nat, j: nat, t: Tid)
    requires j < |run|
  {
    forall k :: i <= k <= j ==> !Pc(run[k], t).Idle?
  }

  /** t is interrupted between s and s'. */
  ghost predicate Interrupts(s: State, t: Tid, s': State) { s' == SetInterrupted(s, t, true) }

  /** t clears its interrupted flag at the end of a wait. */
  ghost predicate Clears(s: State, t: Tid, s': State) {
    Pc(s, t).Wait? && Pc(s, t).w.WClear? && s' == WaitNext(s, t, Pc(s, t).o, Pc(s, t).w)
  }

  /** What may happen to the flags of t while it is inside an operation: it is signaled, interrupted, or clears. */
  ghost predicate FlagsStep(s: State, s': State, t: Tid) {
    && (Signaled(s, t) ==> Signaled(s', t))
    && (IsInterrupted(s', t) == IsInterrupted(s, t) || Interrupts(s, t, s') || Clears(s, t, s'))
  }

  ghost predicate SameFlags(s: State, s': State) {
    s'.signaled == s.signaled && s'.interrupted == s.interrupted
  }

  lemma EnterFlags(s: State, t: Tid, s': State)
    requires EnterStep(s, t, s')
    ensures SameFlags(s, s')
  {
  }

  lemma FlcFlags(s: State, t: Tid, s': State)
    requires FlcStep(s, t, s')
    ensures SameFlags(s, s')
  {
  }

  lemma InflateFlags(s: State, t: Tid, s': State)
    requires InflateStep(s, t, s')
    ensures SameFlags(s, s')
  {
  }

  lemma NotifyFlags(s: State, t: Tid, s': State)
    requires NotifyFlcStep(s, t, s')
    ensures SameFlags(s, s')
  {
  }

  lemma ExitFlags(s: State, t: Tid, s': State)
    requires ExitStep(s, t, s')
    ensures SameFlags(s, s')
  {
  }

  lemma ParkFlags(s: State, t: Tid, s': State)
    requires ParkStep(s, t, s')
    ensures SameFlags(s, s')
  {
  }

  lemma SignalFlags(s: State, t: Tid, s': State, u: Tid)
    requires SignalStep(s, t, s')
    ensures FlagsStep(s, s', u)
  {
  }

  lemma WaitFlags(s: State, t: Tid, s': State, u: Tid)
    requires WaitStep(s, t, s') && (u == t ==> !Pc(s', u).Idle?)
    ensures FlagsStep(s, s', u)
  {
  }

  lemma OwnStepFlags(s: State, t: Tid, s': State, u: Tid)
    requires OwnStep(s, t, s') && (u == t ==> !Pc(s', u).Idle?)
    ensures FlagsStep(s, s', u)
  {
    if EnterStep(s, t, s') { EnterFlags(s, t, s'); }
    else if FlcStep(s, t, s') { FlcFlags(s, t, s'); }
    else if InflateStep(s, t, s') { InflateFlags(s, t, s'); }
    else if NotifyFlcStep(s, t, s') { NotifyFlags(s, t, s'); }
    else if ExitStep(s, t, s') { ExitFlags(s, t, s'); }
    else if ParkStep(s, t, s') { ParkFlags(s, t, s'); }
    else if SignalStep(s, t, s') { SignalFlags(s, t, s', u); }
    else if WaitStep(s, t, s') { WaitFlags(s, t, s', u); }
  }

  lemma StepFlags(s: State, t: Tid, s': State, u: Tid)
    requires Step(s, t, s') && !Pc(s, u).Idle? && !Pc(s', u).Idle?
    ensures FlagsStep(s, s', u)
  {
    if OwnStep(s, t, s') { OwnStepFlags(s, t, s', u); }
  }

  /** A thread stays signaled until its operation is over. */
  lemma {:induction false} SignalStays(run: seq<State>, actor: seq<Tid>, i: nat, j: nat, t: Tid)
    requires IsRun(run, actor) && i <= j < |run| && Inside(run, i, j, t)
    ensures Signaled(run[i], t) ==> Signaled(run[j], t)
    decreases j - i
  {
    if i == j {
    } else {
      SignalStays(run, actor, i, j - 1, t);
      assert StepAt(run, actor, j - 1);
      StepFlags(run[j - 1], actor[j - 1], run[j], t);
    }
  }

  /** While a thread does not clear its interrupted flag, the flag tells whether it has been interrupted. */
  lemma {:induction false} FlagStays(run: seq<State>, actor: seq<Tid>, i: nat, j: nat, t: Tid)
    requires IsRun(run, actor) && i <= j < |run| && Inside(run, i, j, t)
    requires forall k :: i <= k < j ==> !Clears(run[k], t, run[k + 1])
    ensures IsInterrupted(run[j], t) <==>
              IsInterrupted(run[i], t) || exists k :: i <= k < j && Interrupts(run[k], t, run[k + 1])
    decreases j - i
  {
    if i == j {
    } else {
      FlagStays(run, actor, i, j - 1, t);
      assert StepAt(run, actor, j - 1);
      StepFlags(run[j - 1], actor[j - 1], run[j], t);
      assert Interrupts(run[j - 1], t, run[j]) ==> Interrupts(run[j - 1], t, run[j - 1 + 1]);
    }
  }

  // ---------------------------------------------------------------- what a wait reports

  /** t leaves its program counter between run[k] and run[k + 1]. */
  ghost predicate Moves(run: seq<State>, actor: seq<Tid>, k: nat, t: Tid)
    requires k < |actor| && |run| == |actor| + 1
  {
    actor[k] == t && Pc(run[k + 1], t) != Pc(run[k], t)
  }

  lemma StaysPut(run: seq<State>, actor: seq<Tid>, k: nat, t: Tid)
    requires IsRun(run, actor) && k < |actor| && Upheld(run, k + 1) && actor[k] != t
    ensures Pc(run[k + 1], t) == Pc(run[k], t)
  {
    assert StepAt(run, actor, k);
    var s, u, s' := run[k], actor[k], run[k + 1];
    if OwnStep(s, u, s') {
      RunInv(run, actor, k);
      assert Ready(s, u) && AllMarked(s');
      StepKept(s, u, s');
    }
  }

  /** The next time t leaves the program counter it has at k. */
  lemma {:induction false} NextMove(run: seq<State>, actor: seq<Tid>, k: nat, j: nat, t: Tid) returns (m: nat)
    requires IsRun(run, actor) && k < j < |run| && Upheld(run, j) && Pc(run[k], t) != Pc(run[j], t)
    ensures k <= m < j && Moves(run, actor, m, t) && forall n :: k <= n <= m ==> Pc(run[n], t) == Pc(run[k], t)
    decreases j - k
  {
    if Pc(run[k + 1], t) == Pc(run[k], t) {
      m := NextMove(run, actor, k + 1, j, t);
    } else {
      m := k;
      if actor[k] != t { StaysPut(run, actor, k, t); }
    }
  }

  /** The end of a wait goes from one access to a flag to the next. */
  lemma ReportStep(run: seq<State>, actor: seq<Tid>, k: nat, t: Tid)
    requires IsRun(run, actor) && k < |actor| && Moves(run, actor, k, t) && Reporting(Pc(run[k], t))
    ensures run[k + 1] == WaitNext(run[k], t, Pc(run[k], t).o, Pc(run[k], t).w)
  {
    assert StepAt(run, actor, k);
    assert WaitStep(run[k], t, run[k + 1]);
  }

  /** A thread that has cleared its flag is about to return. */
  lemma AfterClear(run: seq<State>, actor: seq<Tid>, k: nat, j: nat, t: Tid)
    requires IsRun(run, actor) && k < j < |run| && Upheld(run, j) && Inside(run, k, j, t)
    requires Clears(run[k], t, run[k + 1])
    ensures Pc(run[j], t) == Pc(run[k + 1], t) && Pc(run[j], t).Wait? && Pc(run[j], t).w.WReset?
  {
    if Pc(run[j], t) != Pc(run[k + 1], t) {
      var m := NextMove(run, actor, k + 1, j, t);
      ReportStep(run, actor, m, t);
    }
  }

  /** At a, t looks whether it has been signaled; at j it returns; from i to j it is inside the wait. */
  ghost predicate WaitEnds(run: seq<State>, actor: seq<Tid>, i: nat, a: nat, j: nat, t: Tid) {
    && IsRun(run, actor) && i <= a < j < |actor| && Upheld(run, j + 1) && Inside(run, i, j, t)
    && Pc(run[a], t).Wait? && Pc(run[a], t).w.WSignaled? && Moves(run, actor, a, t)
    && Pc(run[j + 1], t).Idle?
  }

  /** The two accesses to the interrupted flag: b reads it, c clears it, and t does nothing else from a to j. */
  ghost predicate Accesses(run: seq<State>, actor: seq<Tid>, a: nat, b: nat, c: nat, j: nat, t: Tid)
    requires |run| == |actor| + 1
  {
    && a < b < c < j < |actor|
    && Pc(run[b], t).Wait? && Pc(run[b], t).w.WInterrupted? && Moves(run, actor, b, t)
    && Clears(run[c], t, run[c + 1]) && Moves(run, actor, c, t)
    && Pc(run[c], t).w.was == IsInterrupted(run[b], t) && Pc(run[j], t) == Pc(run[c + 1], t)
    && (forall k :: a <= k < c ==> !Clears(run[k], t, run[k + 1]))
    && (forall k :: c < k < j ==> !Clears(run[k], t, run[k + 1]))
  }

  lemma FindAccesses(run: seq<State>, actor: seq<Tid>, i: nat, a: nat, j: nat, t: Tid) returns (b: nat, c: nat)
    requires WaitEnds(run, actor, i, a, j, t) && !Signaled(run[a], t)
    ensures Accesses(run, actor, a, b, c, j, t)
  {
    ReportStep(run, actor, a, t);
    b := NextMove(run, actor, a + 1, j + 1, t);
    ReportStep(run, actor, b, t);
    c := NextMove(run, actor, b + 1, j + 1, t);
    ReportStep(run, actor, c, t);
    AfterClear(run, actor, c, j, t);
    assert forall k :: a < k <= b ==> Pc(run[k], t) == Pc(run[a + 1], t);
    assert forall k :: b < k <= c ==> Pc(run[k], t) == Pc(run[b + 1], t);
    forall k | b < k < c ensures !Clears(run[k], t, run[k + 1]) {
      assert Pc(run[k + 1], t) == Pc(run[b + 1], t);
    }
    forall k | c < k < j ensures !Clears(run[k], t, run[k + 1]) {
      AfterClear(run, actor, c, k, t);
    }
  }

  /** A notified wait: it reports no interruption and keeps the flag. */
  lemma NotifiedWait(run: seq<State>, actor: seq<Tid>, i: nat, a: nat, j: nat, t: Tid)
    requires WaitEnds(run, actor, i, a, j, t) && Signaled(run[a], t)
    ensures Res(run[j + 1], t) == Ok
    ensures forall k :: i <= k <= j && IsInterrupted(run[k], t) ==> IsInterrupted(run[j + 1], t)
  {
    ReportStep(run, actor, a, t);
    var m := NextMove(run, actor, a + 1, j + 1, t);
    ReportStep(run, actor, m, t);
    assert Pc(run[m + 1], t).Idle?;
    assert m == j;
    forall k | i <= k < j ensures !Clears(run[k], t, run[k + 1]) {
      if k < a && Clears(run[k], t, run[k + 1]) { AfterClear(run, actor, k, a, t); }
      assert k > a ==> Pc(run[k], t) == Pc(run[a + 1], t);
    }
    forall k | i <= k <= j && IsInterrupted(run[k], t) ensures IsInterrupted(run[j + 1], t) {
      FlagStays(run, actor, k, j, t);
    }
  }

  /**
    What a wait reports.  If it was notified at any time, no interruption, and the flag is kept.
    Otherwise it reports an interruption if and only if the flag was set when it was read at b,
    and leaves it set if and only if an interruption arrived after it was cleared at c.
   */
  lemma WaitOutcome(run: seq<State>, actor: seq<Tid>, i: nat, a: nat, j: nat, t: Tid) returns (b: nat, c: nat)
    requires WaitEnds(run, actor, i, a, j, t)
    ensures (exists k :: i <= k <= a && Signaled(run[k], t)) ==> Signaled(run[a], t)
    ensures Signaled(run[a], t) ==>
              && Res(run[j + 1], t) == Ok
              && forall k :: i <= k <= j && IsInterrupted(run[k], t) ==> IsInterrupted(run[j + 1], t)
    ensures !Signaled(run[a], t) ==>
              && Accesses(run, actor, a, b, c, j, t)
              && Res(run[j + 1], t) == (if IsInterrupted(run[b], t) then Interrupted else Ok)
              && (IsInterrupted(run[j + 1], t) <==> exists k :: c < k < j && Interrupts(run[k], t, run[k + 1]))
  {
    forall k | i <= k <= a && Signaled(run[k], t) ensures Signaled(run[a], t) {
      SignalStays(run, actor, k, a, t);
    }
    b, c := 0, 0;
    if Signaled(run[a], t) {
      NotifiedWait(run, actor, i, a, j, t);
    } else {
      b, c := FindAccesses(run, actor, i, a, j, t);
      if actor[j] != t { StaysPut(run, actor, j, t); }
      ReportStep(run, actor, j, t);
      FlagStays(run, actor, c + 1, j, t);
    }
  }

  /**
    An interruption at k of a waiting thread is neither reported nor kept if and only if the wait
    was not notified, k is between the read of the flag and the store that clears it, the read
    found the flag clear, and no other interruption follows.
   */
  lemma InterruptLostExactly(run: seq<State>, actor: seq<Tid>, i: nat, a: nat, j: nat, t: Tid, k: nat)
      returns (b: nat, c: nat)
    requires WaitEnds(run, actor, i, a, j, t) && i <= k < j && Interrupts(run[k], t, run[k + 1])
    ensures Res(run[j + 1], t) != Interrupted && !IsInterrupted(run[j + 1], t) <==>
              && !Signaled(run[a], t)
              && Accesses(run, actor, a, b, c, j, t) && b < k < c && !IsInterrupted(run[b], t)
              && forall n :: c < n < j ==> !Interrupts(run[n], t, run[n + 1])
  {
    b, c := WaitOutcome(run, actor, i, a, j, t);
    assert IsInterrupted(run[k + 1], t);
    if !Signaled(run[a], t) && k < b { SeenAtRead(run, actor, i, a, b, c, j, t, k); }
  }

  /** An interruption before the read is seen by it. */
  lemma SeenAtRead(run: seq<State>, actor: seq<Tid>, i: nat, a: nat, b: nat, c: nat, j: nat, t: Tid, k: nat)
    requires WaitEnds(run, actor, i, a, j, t) && Accesses(run, actor, a, b, c, j, t)
    requires i <= k < b && Interrupts(run[k], t, run[k + 1])
    ensures IsInterrupted(run[b], t)
  {
    forall n | i <= n < b ensures !Clears(run[n], t, run[n + 1]) {
      if n < a && Clears(run[n], t, run[n + 1]) { AfterClear(run, actor, n, a, t); }
    }
    FlagStays(run, actor, k + 1, b, t);
  }

  // ---------------------------------------------------------------- whom a notify reaches

  /** Which of the waiters with the flags `before` are signaled once a notify is over. */
  ghost predicate NotifiedFlag(before: seq<bool>, one: bool, j: int)
    requires 0 <= j < |before|
  {
    before[j] || !one || forall i :: 0 <= i < j ==> before[i]
  }

  /** The step that ends a notify leaves the waiters signaled that should be. */
  lemma LoopOutcome(s: State, t: Tid, s': State, r: Rec, pos: int, before: seq<bool>)
    requires Inv(s) && SignalStep(s, t, s') && t != 0
    requires Pc(s, t).Signal? && Pc(s, t).g == SLoop(r, pos, before) && Pc(s', t) == Idle
    ensures Waiters(s', r) == Waiters(s, r) && |before| == |Waiters(s, r)|
    ensures forall j :: 0 <= j < |before| ==> Signaled(s', Waiters(s, r)[j]) == NotifiedFlag(before, Pc(s, t).one, j)
    ensures forall w: Tid :: w !in Waiters(s, r) ==> Signaled(s', w) == Signaled(s, w)
  {
    assert ThreadOk(s, t) && WaitOk(s, r);
    var ws, one := Waiters(s, r), Pc(s, t).one;
    if pos >= |ws| {
      assert s' == Return(s, t, Ok);
      FlagsAtEnd(s, r, one, before);
    } else {
      assert one && !Signaled(s, ws[pos]);
      assert s' == Return(SetSignaled(s, ws[pos], true), t, Ok);
      FlagsAfterOne(s, SetSignaled(s, ws[pos], true), r, pos, before);
    }
  }

  lemma FlagsAtEnd(s: State, r: Rec, one: bool, before: seq<bool>)
    requires FlagsOk(s, r, one, |Waiters(s, r)|, before)
    ensures forall j :: 0 <= j < |before| ==> Signaled(s, Waiters(s, r)[j]) == NotifiedFlag(before, one, j)
  {
  }

  lemma FlagsAfterOne(s: State, s1: State, r: Rec, pos: int, before: seq<bool>)
    requires FlagsOk(s, r, true, pos, before) && pos < |before| && Distinct(Waiters(s, r))
    requires s1 == SetSignaled(s, Waiters(s, r)[pos], true) && !Signaled(s, Waiters(s, r)[pos])
    ensures forall j :: 0 <= j < |before| ==> Signaled(s1, Waiters(s, r)[j]) == NotifiedFlag(before, true, j)
  {
    forall j | 0 <= j < |before|
      ensures Signaled(s1, Waiters(s, r)[j]) == NotifiedFlag(before, true, j)
    {
      assert !before[pos];
    }
  }

  /** t walks the waiters of r, whose flags were `before` when it began. */
  ghost predicate Walking(s: State, t: Tid, o: Obj, one: bool, r: Rec, before: seq<bool>) {
    var p := Pc(s, t);
    p.Signal? && p.o == o && p.one == one && p.g.SLoop? && p.g.r == r && p.g.before == before
  }

  lemma OwnWalk(s: State, t: Tid, s': State, o: Obj, one: bool, r: Rec, before: seq<bool>)
    requires Step(s, t, s') && Walking(s, t, o, one, r, before) && !Pc(s', t).Idle?
    ensures Walking(s', t, o, one, r, before) && Waiters(s', r) == Waiters(s, r)
  {
    assert SignalStep(s, t, s') || InterruptStep(s, t, s');
  }

  /** Meanwhile nobody joins or leaves the waiters. */
  lemma WalkGoesOn(s: State, u: Tid, s': State, t: Tid, o: Obj, one: bool, r: Rec, before: seq<bool>)
    requires Inv(s) && Step(s, u, s') && Marked(s', u) && t != 0 && u != t && Walking(s, t, o, one, r, before)
    ensures Walking(s', t, o, one, r, before) && Waiters(s', r) == Waiters(s, r)
  {
    if OwnStep(s, u, s') {
      assert ThreadOk(s, t) && Ready(s, u);
      StepKept(s, u, s');
      ListStays(s, u, s', t, r);
    }
  }

  lemma ListStays(s: State, u: Tid, s': State, t: Tid, r: Rec)
    requires GuarThreads(s, u, s') && GuarRecords(s, u, s') && u != t && t != 0 && Mutex(s, r) == t
    ensures Pc(s', t) == Pc(s, t) && Waiters(s', r) == Waiters(s, r)
  {
    assert s'.recs == s.recs || RecordChange(s, u, s', r);
  }

  lemma WalkStep(run: seq<State>, actor: seq<Tid>, k: nat, t: Tid, o: Obj, one: bool, r: Rec, before: seq<bool>)
    requires IsRun(run, actor) && k < |actor| && Upheld(run, k + 1) && t != 0 && !Pc(run[k + 1], t).Idle?
    requires Walking(run[k], t, o, one, r, before)
    ensures Walking(run[k + 1], t, o, one, r, before) && Waiters(run[k + 1], r) == Waiters(run[k], r)
  {
    RunInv(run, actor, k);
    var s, u, s' := run[k], actor[k], run[k + 1];
    assert StepAt(run, actor, k) && AllMarked(s');
    if u == t {
      OwnWalk(s, t, s', o, one, r, before);
    } else {
      WalkGoesOn(s, u, s', t, o, one, r, before);
    }
  }

  lemma {:induction false} WalkRun(run: seq<State>, actor: seq<Tid>, i: nat, j: nat, t: Tid,
                                   o: Obj, one: bool, r: Rec, before: seq<bool>)
    requires IsRun(run, actor) && i <= j < |run| && Upheld(run, j) && Inside(run, i, j, t) && t != 0
    requires Walking(run[i], t, o, one, r, before)
    ensures Walking(run[j], t, o, one, r, before) && Waiters(run[j], r) == Waiters(run[i], r)
    decreases j - i
  {
    if i == j {
    } else {
      WalkStep(run, actor, i, t, o, one, r, before);
      WalkRun(run, actor, i + 1, j, t, o, one, r, before);
    }
  }

  lemma WalkBegins(s: State, t: Tid, s': State, o: Obj, one: bool, r: Rec)
    requires Step(s, t, s') && Pc(s, t) == Signal(o, one, SOwner(r)) && Pc(s', t) != Pc(s, t) && !Pc(s', t).Idle?
    ensures Walking(s', t, o, one, r, Flags(s', Waiters(s', r)))
  {
    assert SignalStep(s, t, s');
    assert s' == Goto(s, t, Signal(o, one, SLoop(r, 0, Flags(s, Waiters(s, r)))));
    assert Flags(s', Waiters(s', r)) == Flags(s, Waiters(s, r));
  }

  /**
    A notify that begins to walk the waiters at i and returns at j: the waiters are the same,
    and it has signaled the first of them that was not signaled at i, and no other; notify-all
    has signaled all.
   */
  lemma NotifyOutcome(run: seq<State>, actor: seq<Tid>, i: nat, j: nat, t: Tid, o: Obj, one: bool, r: Rec)
    requires IsRun(run, actor) && 0 < i <= j < |actor| && Upheld(run, j) && actor[i - 1] == t && actor[j] == t && t != 0
    requires Pc(run[i - 1], t) == Signal(o, one, SOwner(r)) && Pc(run[i], t) != Pc(run[i - 1], t)
    requires Inside(run, i, j, t) && Pc(run[j + 1], t).Idle?
    ensures Waiters(run[j + 1], r) == Waiters(run[i], r)
    ensures var ws := Waiters(run[i], r);
            forall k :: 0 <= k < |ws| ==>
              Signaled(run[j + 1], ws[k]) == NotifiedFlag(Flags(run[i], ws), one, k)
  {
    var before := Flags(run[i], Waiters(run[i], r));
    assert StepAt(run, actor, i - 1) && StepAt(run, actor, j);
    WalkBegins(run[i - 1], t, run[i], o, one, r);
    WalkRun(run, actor, i, j, t, o, one, r, before);
    RunInv(run, actor, j);
    assert SignalStep(run[j], t, run[j + 1]);
    LoopOutcome(run[j], t, run[j + 1], r, Pc(run[j], t).g.pos, before);
  }
}
