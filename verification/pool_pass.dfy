/** What a pass of the keeper over its list does not miss: the workers that sleep. */
module PoolPass {
  import opened Pool
  import opened PoolSafety
  import opened PoolKeeper

  /** Of the workers that the loop of kill_spares has stepped past, none after the first is asleep, or
      has been woken and not yet got the mutex. */
  ghost predicate NoneSleeps(s: State)
  {
    s.keeper.Scanning? ==>
      forall k :: 1 <= k < s.keeper.at && k < |s.list| ==> IsUp(s, s.list[k])
  }

  predicate IsUp(s: State, i: nat)
  {
    i < |s.workers| ==> s.workers[i].pc != Waiting && s.workers[i].pc != Woken
  }

  lemma ScanKeepsNoneSleeps(c: Config, s: State)
    requires Enabled(s, Scan) && NoneSleeps(s)
    ensures NoneSleeps(Do(c, s, Scan))
  {
    var n, i := Do(c, s, Scan), s.list[s.keeper.at];
    if n.list == s.list && n.workers == s.workers {
      forall k | 1 <= k < n.keeper.at && k < |n.list| ensures IsUp(n, n.list[k]) {
        if k < s.keeper.at { assert IsUp(s, s.list[k]); } else { assert !(i < |s.workers| && LooksFree(s.workers[i])); }
      }
    }
  }

  /** While the keeper has the mutex, no worker can go to sleep. */
  lemma OthersKeepNoneSleeps(c: Config, s: State, a: Action)
    requires Enabled(s, a) && !a.Scan? && !a.KillSpares? && Locks(s) && NoneSleeps(s)
    ensures NoneSleeps(Do(c, s, a))
  {
    var n := Do(c, s, a);
    if n.keeper.Scanning? {
      assert n.keeper == s.keeper && n.list == s.list && |n.workers| == |s.workers|;
      forall k | 1 <= k < n.keeper.at && k < |n.list| ensures IsUp(n, n.list[k]) { assert IsUp(s, s.list[k]); }
    }
  }

  lemma {:induction false} RunsKeepNoneSleeps(c: Config, s: State, actions: seq<Action>)
    requires Inv(c, s) && NoneSleeps(s) && IsRun(c, s, actions)
    ensures NoneSleeps(After(c, s, actions))
    decreases actions
  {
    if actions != [] {
      var a := actions[0];
      StepKeepsInv(c, s, a);
      if a.Scan? {
        ScanKeepsNoneSleeps(c, s);
      } else if !a.KillSpares? {
        OthersKeepNoneSleeps(c, s, a);
      }
      RunsKeepNoneSleeps(c, Do(c, s, a), actions[1..]);
    }
  }

  /** A killing pass kills every sleeper it comes to: in every reachable state, no listed worker that it
      has stepped past, but for the first of the list, is asleep. */
  lemma PassMissesNoSleeper(c: Config, s: State, k: nat)
    requires Reachable(c, s) && s.keeper.Scanning? && 1 <= k < s.keeper.at && k < |s.list|
    ensures s.list[k] < |s.workers| && s.workers[s.list[k]].pc != Waiting && s.workers[s.list[k]].pc != Woken
  {
    ReachableInv(c, s);
    InitInv(c);
    var actions :| IsRun(c, Init(), actions) && After(c, Init(), actions) == s;
    RunsKeepNoneSleeps(c, Init(), actions);
    assert IsUp(s, s.list[k]);
  }

  /** So a pass that ends with workers still to be killed leaves none asleep but perhaps the first. */
  lemma ShortPassLeavesNoSleeper(c: Config, s: State, k: nat)
    requires Reachable(c, s) && Enabled(s, ScanDone) && s.keeper.toKill > 0 && 1 <= k < |s.list|
    ensures s.list[k] < |s.workers| && s.workers[s.list[k]].pc != Waiting
  {
    PassMissesNoSleeper(c, s, k);
  }
}
