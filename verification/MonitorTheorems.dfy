/**
  Mutual exclusion, for every run of any number of threads on any number of objects, up to the
  first failure of the assertion at lock.cpp line 703.
 */
module MonitorTheorems {
  import opened MonitorModel
  import opened MonitorInv
  import opened MonitorFrames
  import opened MonitorSteps

  /**
    At most one thread is inside the monitor of an object, and the lockword or the lock record
    says which and how deep.  Between operations the depth is the number of the thread's
    successful enters minus the number of its successful exits.
   */
  lemma MutualExclusion(run: seq<State>, actor: seq<Tid>, i: nat, t: Tid, u: Tid, o: Obj)
    requires IsRun(run, actor) && i < |run| && Upheld(run, i) && t != 0 && u != 0
    ensures Depth(run[i], t, o) >= 0
    ensures Depth(run[i], t, o) > 0 <==> MonitorOwner(run[i], o) == t
    ensures Depth(run[i], t, o) > 0 && Depth(run[i], u, o) > 0 ==> t == u
    ensures Pc(run[i], t) == Idle ==> Depth(run[i], t, o) == Held(run[i], t, o)
  {
    RunInv(run, actor, i);
    DepthOwner(run[i], t, o);
    DepthOwner(run[i], u, o);
    assert BalanceOk(run[i], t, o);
  }

  lemma DepthOwner(s: State, t: Tid, o: Obj)
    requires Inv(s) && t != 0
    ensures Depth(s, t, o) >= 0 && (Depth(s, t, o) > 0 <==> MonitorOwner(s, o) == t)
  {
    assert WordOk(s, o) && ThreadOk(s, t);
    if Lw(s, o).Fat? {
      RecordOfWord(s, o, Lw(s, o).rec);
      assert RecOk(s, Lw(s, o).rec);
    }
  }
}
