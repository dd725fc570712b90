/** The waiters of a lock record stand in the order in which they came. */
module MonitorOrder {
  import opened MonitorModel
  import opened MonitorInv
  import opened MonitorFrames
  import opened MonitorSteps

  /** u stands before w. */
  ghost predicate Before(ws: seq<Tid>, u: Tid, w: Tid) {
    exists i, j :: 0 <= i < j < |ws| && ws[i] == u && ws[j] == w
  }

  /** What a step of t may do to a list of waiters: nothing, add t at the end, or take t out of its place. */
  ghost predicate OrderStep(ws: seq<Tid>, ws': seq<Tid>, t: Tid) {
    || ws' == ws
    || (t !in ws && ws' == ws + [t])
    || exists k :: 0 <= k < |ws| && ws[k] == t && ws' == ws[..k] + ws[k + 1..]
  }

  lemma EnterWaiters(s: State, t: Tid, s': State, o: Obj, e: EnterStage)
    requires s' == EnterNext(s, t, o, e)
    ensures s'.recs.waiters == s.recs.waiters
  {
  }

  lemma FlcWaiters(s: State, t: Tid, s': State)
    requires FlcStep(s, t, s')
    ensures s'.recs.waiters == s.recs.waiters
  {
  }

  lemma NotifyWaiters(s: State, t: Tid, s': State)
    requires NotifyFlcStep(s, t, s')
    ensures s'.recs.waiters == s.recs.waiters
  {
  }

  lemma ExitWaiters(s: State, t: Tid, s': State, o: Obj, x: ExitStage)
    requires s' == ExitNext(s, t, o, x)
    ensures s'.recs.waiters == s.recs.waiters
  {
  }

  lemma SignalWaiters(s: State, t: Tid, s': State)
    requires SignalStep(s, t, s')
    ensures s'.recs.waiters == s.recs.waiters
  {
  }

  /** A record that has just been allocated has no waiters, before and after. */
  lemma InflateWaiters(s: State, t: Tid, s': State, o: Obj, why: Why, st: InflateStage, nrec: Rec, r: Rec)
    requires s' == InflateNext(s, t, o, why, st, nrec) && nrec !in s.recs.robj && WaitOk(s, r)
    ensures Waiters(s', r) == Waiters(s, r)
  {
  }

  lemma WaitWaiters(s: State, t: Tid, s': State, o: Obj, w: WaitStage, r: Rec)
    requires Pc(s, t) == Wait(o, w) && s' == WaitNext(s, t, o, w) && WaitOk(s, r)
    ensures OrderStep(Waiters(s, r), Waiters(s', r), t)
  {
    match w
    case WAdd(r') => assert Waiters(s', r) == if r == r' then Waiters(s, r) + [t] else Waiters(s, r);
    case _ => assert s'.recs.waiters == s.recs.waiters;
  }

  lemma ParkWaiters(s: State, t: Tid, s': State, r: Rec)
    requires ParkStep(s, t, s') && WaitOk(s, r) && ThreadOk(s, t)
    ensures OrderStep(Waiters(s, r), Waiters(s', r), t)
  {
    if Pc(s, t).q.PRemove? && Pc(s, t).r == r {
      var ws := Waiters(s, r);
      var k :| 0 <= k < |ws| && ws[k] == t;
      WithoutCuts(ws, t, k);
      assert Waiters(s', r) == Without(ws, t);
    } else {
      assert Waiters(s', r) == Waiters(s, r);
    }
  }

  /** Every step of every thread keeps the order of the waiters. */
  lemma StepOrder(s: State, t: Tid, s': State, r: Rec)
    requires Inv(s) && Step(s, t, s')
    ensures OrderStep(Waiters(s, r), Waiters(s', r), t)
  {
    assert WaitOk(s, r) && ThreadOk(s, t);
    if EnterStep(s, t, s') { EnterWaiters(s, t, s', Pc(s, t).o, Pc(s, t).e); }
    else if FlcStep(s, t, s') { FlcWaiters(s, t, s'); }
    else if InflateStep(s, t, s') {
      var Inflate(o, why, st) := Pc(s, t);
      var nrec: Rec :| InflateEnabled(s, st, nrec) && s' == InflateNext(s, t, o, why, st, nrec);
      InflateWaiters(s, t, s', o, why, st, nrec, r);
    }
    else if NotifyFlcStep(s, t, s') { NotifyWaiters(s, t, s'); }
    else if ExitStep(s, t, s') { ExitWaiters(s, t, s', Pc(s, t).o, Pc(s, t).x); }
    else if WaitStep(s, t, s') { WaitWaiters(s, t, s', Pc(s, t).o, Pc(s, t).w, r); }
    else if ParkStep(s, t, s') { ParkWaiters(s, t, s', r); }
    else if SignalStep(s, t, s') { SignalWaiters(s, t, s'); }
  }

  lemma BeforeStays(ws: seq<Tid>, ws': seq<Tid>, t: Tid, u: Tid, w: Tid)
    requires OrderStep(ws, ws', t) && u in ws && u in ws' && u != w && (w in ws ==> Before(ws, u, w))
    requires Distinct(ws)
    ensures w in ws' ==> Before(ws', u, w)
  {
    if ws' == ws + [t] && w in ws' {
      BeforeJoined(ws, t, u, w);
    } else if ws' != ws && w in ws' {
      var k :| 0 <= k < |ws| && ws[k] == t && ws' == ws[..k] + ws[k + 1..];
      BeforeCut(ws, ws', k, u, w);
    }
  }

  lemma BeforeJoined(ws: seq<Tid>, t: Tid, u: Tid, w: Tid)
    requires u in ws && u != w && (w in ws ==> Before(ws, u, w)) && (w in ws || w == t)
    ensures Before(ws + [t], u, w)
  {
    var ws' := ws + [t];
    if w in ws {
      var i, j :| 0 <= i < j < |ws| && ws[i] == u && ws[j] == w;
      assert ws'[i] == u && ws'[j] == w;
    } else {
      var i :| 0 <= i < |ws| && ws[i] == u;
      assert ws'[i] == u && ws'[|ws|] == w;
    }
  }

  lemma BeforeCut(ws: seq<Tid>, ws': seq<Tid>, k: nat, u: Tid, w: Tid)
    requires Distinct(ws) && k < |ws| && ws' == ws[..k] + ws[k + 1..] && u in ws' && w in ws'
    requires w in ws ==> Before(ws, u, w)
    ensures Before(ws', u, w)
  {
    var a :| 0 <= a < |ws'| && ws'[a] == u;
    var b :| 0 <= b < |ws'| && ws'[b] == w;
    assert ws[if a < k then a else a + 1] == u && ws[if b < k then b else b + 1] == w;
    var i, j :| 0 <= i < j < |ws| && ws[i] == u && ws[j] == w;
    assert i == if a < k then a else a + 1;
    assert j == if b < k then b else b + 1;
  }

  lemma OrderAt(run: seq<State>, actor: seq<Tid>, k: nat, r: Rec)
    requires IsRun(run, actor) && k < |actor| && Upheld(run, k)
    ensures OrderStep(Waiters(run[k], r), Waiters(run[k + 1], r), actor[k]) && Distinct(Waiters(run[k], r))
  {
    RunInv(run, actor, k);
    assert StepAt(run, actor, k);
    StepOrder(run[k], actor[k], run[k + 1], r);
    assert WaitOk(run[k], r);
  }

  /** w does not wait on r, or stands behind u. */
  ghost predicate Behind(s: State, r: Rec, u: Tid, w: Tid) {
    w in Waiters(s, r) ==> Before(Waiters(s, r), u, w)
  }

  lemma BehindAt(run: seq<State>, actor: seq<Tid>, k: nat, r: Rec, u: Tid, w: Tid)
    requires IsRun(run, actor) && k < |actor| && Upheld(run, k) && u != w
    requires u in Waiters(run[k], r) && u in Waiters(run[k + 1], r) && Behind(run[k], r, u, w)
    ensures Behind(run[k + 1], r, u, w)
  {
    OrderAt(run, actor, k, r);
    BeforeStays(Waiters(run[k], r), Waiters(run[k + 1], r), actor[k], u, w);
  }

  /**
    While u waits on r, whoever begins to wait there after u stands behind u, so that notify
    comes to u first.
   */
  lemma {:induction false} WaitersInOrder(run: seq<State>, actor: seq<Tid>, i: nat, j: nat, r: Rec, u: Tid, w: Tid)
    requires IsRun(run, actor) && i <= j < |run| && Upheld(run, j) && u != w
    requires forall k :: i <= k <= j ==> u in Waiters(run[k], r)
    requires Behind(run[i], r, u, w)
    ensures Behind(run[j], r, u, w)
    decreases j - i
  {
    if i == j {
    } else {
      WaitersInOrder(run, actor, i, j - 1, r, u, w);
      BehindAt(run, actor, j - 1, r, u, w);
    }
  }
}
