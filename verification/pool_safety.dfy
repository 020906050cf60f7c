/** What every step of the thread pool keeps. Each invariant has a lemma of its own, and RunsKeep
    puts them together for every run from the empty pool. */
module PoolSafety {
  import opened Pool

  // ---- counters ----

  ghost predicate Counters(s: State)
  {
    && s.numFree == Tally(IsFree, s.workers)
    && s.numBusy == Tally(IsBusy, s.workers)
    && s.numStarting == Tally(IsStarting, s.workers)
  }

  /** The one worker whose record a step changes, if there is one. */
  function Mover(s: State, a: Action): (r: int)
    requires Enabled(s, a)
    ensures r < |s.workers|
  {
    match a
    case Announce(i) => i
    case SetFree(i) => i
    case Lock(i) => i
    case Check(i) => i
    case Wake(i) => i
    case Finish(i) => i
    case Leave(i) => i
    case AddWork(_, w) => if NoneWaits(s.workers) then -1 else w
    case Scan => if s.list[s.keeper.at] < |s.workers| then s.list[s.keeper.at] else -1
    case _ => -1
  }

  /** How a step changes the number of workers of a class. */
  lemma TallyStep(c: Config, s: State, a: Action, k: Class)
    requires Enabled(s, a)
    ensures var n, m := Do(c, s, a), Mover(s, a);
      if m >= 0 then
        && |n.workers| == |s.workers|
        && Tally(k, n.workers) == Tally(k, s.workers) - One(In(k, s.workers[m])) + One(In(k, n.workers[m]))
      else if a.ScanDone? then k != WillCheck ==> Tally(k, n.workers) == Tally(k, s.workers)
      else
        Tally(k, n.workers)
        == Tally(k, s.workers) + One(a.StartOne? && (k == IsStarting || k == IsSpare || k == IsLive))
  {
    var n, m := Do(c, s, a), Mover(s, a);
    if m >= 0 {
      TallyUpdate(k, s.workers, m, n.workers[m]);
      assert n.workers == s.workers[m := n.workers[m]];
    } else if a.ScanDone? {
      if k != WillCheck { TallyWakeAll(k, s.workers); }
    } else if a.StartOne? {
      TallyAppend(k, s.workers, Worker(Starting, false));
    }
  }

  lemma FreeStep(c: Config, s: State, a: Action)
    requires Enabled(s, a) && s.numFree == Tally(IsFree, s.workers)
    ensures Do(c, s, a).numFree == Tally(IsFree, Do(c, s, a).workers)
  {
    TallyStep(c, s, a, IsFree);
  }

  lemma BusyStep(c: Config, s: State, a: Action)
    requires Enabled(s, a) && s.numBusy == Tally(IsBusy, s.workers)
    ensures Do(c, s, a).numBusy == Tally(IsBusy, Do(c, s, a).workers)
  {
    TallyStep(c, s, a, IsBusy);
  }

  lemma StartingStep(c: Config, s: State, a: Action)
    requires Enabled(s, a) && s.numStarting == Tally(IsStarting, s.workers)
    ensures Do(c, s, a).numStarting == Tally(IsStarting, Do(c, s, a).workers)
  {
    TallyStep(c, s, a, IsStarting);
  }

  lemma StepKeepsCounters(c: Config, s: State, a: Action)
    requires Enabled(s, a) && Counters(s)
    ensures Counters(Do(c, s, a))
  {
    FreeStep(c, s, a);
    BusyStep(c, s, a);
    StartingStep(c, s, a);
  }

  // ---- the mutex ----

  ghost predicate Locks(s: State)
  {
    && (forall i :: 0 <= i < |s.workers| && s.workers[i].pc == Checking ==> s.mutex == ByWorker(i))
    && (s.mutex.ByWorker? ==> At(s, s.mutex.i, Checking))
    && (s.mutex == ByKeeper <==> s.keeper.Scanning? || s.keeper.Adding?)
  }

  lemma StepKeepsLocks(c: Config, s: State, a: Action)
    requires Enabled(s, a) && Locks(s)
    ensures Locks(Do(c, s, a))
  {
    if OfKeeper(a) { KeeperKeepsLocks(c, s, a); } else { WorkerKeepsLocks(c, s, a); }
  }

  predicate OfKeeper(a: Action)
  {
    a.KillSpares? || a.Scan? || a.ScanDone? || a.StartSpares? || a.StartOne? || a.StartDone? || a.Join? || a.Rest?
  }

  lemma KeeperKeepsLocks(c: Config, s: State, a: Action)
    requires Enabled(s, a) && Locks(s) && OfKeeper(a)
    ensures Locks(Do(c, s, a))
  {
  }

  lemma WorkerKeepsLocks(c: Config, s: State, a: Action)
    requires Enabled(s, a) && Locks(s) && !OfKeeper(a)
    ensures Locks(Do(c, s, a))
  {
  }

  // ---- the list of workers and the list to collect ----

  predicate MayQuit(pc: Pc)
  {
    pc.Locking? || pc.Checking? || pc.Waiting? || pc.Woken? || pc.Leaving? || pc.Gone?
  }

  ghost predicate Distinct(xs: seq<nat>)
  {
    forall j, k :: 0 <= j < k < |xs| ==> xs[j] != xs[k]
  }

  /** The list holds exactly the workers that were not told to quit, each once. */
  ghost predicate Listed(s: State)
  {
    && Distinct(s.list)
    && (forall k :: 0 <= k < |s.list| ==> s.list[k] < |s.workers| && !s.workers[s.list[k]].quit)
    && (forall i :: 0 <= i < |s.workers| && !s.workers[i].quit ==> i in s.list)
  }

  /** The others wait in to_collect until they are gone. */
  ghost predicate Collected(s: State)
  {
    && (forall k :: 0 <= k < |s.collect| ==> s.collect[k] < |s.workers| && s.workers[s.collect[k]].quit)
    && (forall i :: 0 <= i < |s.workers| && s.workers[i].quit ==> i in s.collect || s.workers[i].pc == Gone)
    && (s.keeper == Resting ==> s.collect == [])
  }

  /** A worker told to quit holds no task and never takes one again; no other worker leaves. */
  ghost predicate Quitters(s: State)
  {
    forall i :: 0 <= i < |s.workers| ==> QuitterOk(s.workers[i])
  }

  predicate QuitterOk(w: Worker)
  {
    (w.quit ==> MayQuit(w.pc)) && (w.pc == Leaving || w.pc == Gone ==> w.quit)
  }

  lemma RemoveDistinct(xs: seq<nat>, k: nat)
    requires k < |xs| && Distinct(xs)
    ensures var ys := xs[..k] + xs[k + 1..];
      Distinct(ys) && forall x :: x in ys <==> x in xs && x != xs[k]
  {
    var ys := xs[..k] + xs[k + 1..];
    forall x ensures x in ys <==> x in xs && x != xs[k] {
      if x in xs && x != xs[k] {
        var j :| 0 <= j < |xs| && xs[j] == x;
        assert ys[if j < k then j else j - 1] == x;
      }
    }
  }

  /** Outside Scan and StartOne, no worker appears and none is told to quit. */
  lemma OthersKeepQuit(c: Config, s: State, a: Action)
    requires Enabled(s, a) && !a.Scan? && !a.StartOne?
    ensures var n := Do(c, s, a);
      && |n.workers| == |s.workers| && n.list == s.list
      && forall i :: 0 <= i < |s.workers| ==>
           n.workers[i].quit == s.workers[i].quit && (s.workers[i].pc == Gone ==> n.workers[i].pc == Gone)
  {
  }

  lemma StepKeepsListed(c: Config, s: State, a: Action)
    requires Enabled(s, a) && Listed(s)
    ensures Listed(Do(c, s, a))
  {
    var n := Do(c, s, a);
    if a.Scan? {
      RemoveDistinct(s.list, s.keeper.at);
      forall k | 0 <= k < |n.list| ensures n.list[k] < |n.workers| && !n.workers[n.list[k]].quit {
        assert n.list[k] in n.list;
      }
    } else if a.StartOne? {
      forall i | 0 <= i < |n.workers| && !n.workers[i].quit ensures i in n.list {
        assert n.list[|s.list|] == |s.workers|;
        assert i < |s.workers| ==> i in s.list;
      }
    } else {
      OthersKeepQuit(c, s, a);
    }
  }

  lemma ScanKeepsCollected(c: Config, s: State)
    requires Enabled(s, Scan) && Listed(s) && Collected(s)
    ensures Collected(Do(c, s, Scan))
  {
    var n := Do(c, s, Scan);
    assert forall i :: i in s.collect ==> i in n.collect;
    assert n.collect != s.collect ==> n.collect[|s.collect|] == s.list[s.keeper.at];
  }

  lemma StepKeepsCollected(c: Config, s: State, a: Action)
    requires Enabled(s, a) && Listed(s) && Collected(s)
    ensures Collected(Do(c, s, a))
  {
    var n := Do(c, s, a);
    if a.Scan? {
      ScanKeepsCollected(c, s);
    } else if !a.StartOne? {
      OthersKeepQuit(c, s, a);
      if a.Join? {
        var last := s.collect[|s.collect| - 1];
        assert forall i :: i in s.collect && i != last ==> i in n.collect;
      }
    }
  }

  lemma StepKeepsQuitters(c: Config, s: State, a: Action)
    requires Enabled(s, a) && Quitters(s)
    ensures Quitters(Do(c, s, a))
  {
    var n, m := Do(c, s, a), Mover(s, a);
    forall i | 0 <= i < |n.workers| ensures QuitterOk(n.workers[i]) {
      if i < |s.workers| { assert QuitterOk(s.workers[i]); }
    }
  }

  // ---- tasks ----

  function TasksOf(taken: seq<Taken>): (r: seq<Task>)
    ensures |r| == |taken| && forall k :: 0 <= k < |taken| ==> r[k] == taken[k].task
  {
    seq(|taken|, k requires 0 <= k < |taken| => taken[k].task)
  }

  /** Where the k-th task taken is: over, or run by the worker that took it. */
  predicate Placed(s: State, k: nat)
    requires k < |s.taken|
  {
    k in s.over || At(s, s.taken[k].worker, Running(k))
  }

  predicate RunnerOk(s: State, i: nat)
    requires i < |s.workers|
  {
    s.workers[i].pc.Running? ==>
      var k := s.workers[i].pc.ticket;
      k < |s.taken| && s.taken[k].worker == i && k !in s.over
  }

  /** Tasks leave the queue in the order they were added; each one taken is held by exactly one
      worker until it is over, and it is over once. */
  ghost predicate Ledger(s: State)
  {
    && s.added == TasksOf(s.taken) + s.tasks
    && (forall k :: 0 <= k < |s.taken| ==> Placed(s, k))
    && (forall i :: 0 <= i < |s.workers| ==> RunnerOk(s, i))
    && Distinct(s.over)
    && (forall j :: 0 <= j < |s.over| ==> s.over[j] < |s.taken|)
  }

  /** No task is taken or ended between two states. */
  ghost predicate SameTasks(s: State, n: State)
  {
    && n.taken == s.taken && n.over == s.over && |n.workers| >= |s.workers|
    && (n.added == TasksOf(n.taken) + n.tasks <== s.added == TasksOf(s.taken) + s.tasks)
    && forall i :: 0 <= i < |n.workers| ==>
         if i < |s.workers| && s.workers[i].pc.Running? then n.workers[i].pc == s.workers[i].pc
         else !n.workers[i].pc.Running?
  }

  lemma IdleStep(c: Config, s: State, a: Action)
    requires Enabled(s, a) && !a.Finish?
    requires a.Check? ==> s.workers[a.i].quit || s.tasks == []
    ensures SameTasks(s, Do(c, s, a))
  {
  }

  lemma SameLedger(s: State, n: State)
    requires Ledger(s) && SameTasks(s, n)
    ensures Ledger(n)
  {
    forall k | 0 <= k < |n.taken| ensures Placed(n, k) { assert Placed(s, k); }
    forall i | 0 <= i < |n.workers| ensures RunnerOk(n, i) {
      if i < |s.workers| { assert RunnerOk(s, i); }
    }
  }

  lemma IdleKeepsLedger(c: Config, s: State, a: Action)
    requires Enabled(s, a) && !a.Finish? && Ledger(s)
    requires a.Check? ==> s.workers[a.i].quit || s.tasks == []
    ensures Ledger(Do(c, s, a))
  {
    IdleStep(c, s, a);
    SameLedger(s, Do(c, s, a));
  }

  lemma TakeKeepsLedger(c: Config, s: State, i: nat)
    requires Enabled(s, Check(i)) && Ledger(s)
    requires !s.workers[i].quit && s.tasks != []
    ensures Ledger(Do(c, s, Check(i)))
  {
    var n := Do(c, s, Check(i));
    assert n.added == TasksOf(n.taken) + n.tasks;
    forall k | 0 <= k < |n.taken| ensures Placed(n, k) {
      if k < |s.taken| { assert Placed(s, k); }
    }
    forall j | 0 <= j < |n.workers| ensures RunnerOk(n, j) { assert RunnerOk(s, j); }
  }

  lemma FinishKeepsLedger(c: Config, s: State, i: nat)
    requires Enabled(s, Finish(i)) && Ledger(s)
    ensures Ledger(Do(c, s, Finish(i)))
  {
    var n := Do(c, s, Finish(i));
    assert RunnerOk(s, i);
    forall k | 0 <= k < |n.taken| ensures Placed(n, k) {
      assert Placed(s, k);
      if k == s.workers[i].pc.ticket { assert n.over[|s.over|] == k; }
      else if k in s.over { assert k in n.over; }
    }
    forall j | 0 <= j < |n.workers| ensures RunnerOk(n, j) { assert RunnerOk(s, j); }
  }

  lemma StepKeepsLedger(c: Config, s: State, a: Action)
    requires Enabled(s, a) && Ledger(s)
    ensures Ledger(Do(c, s, a))
  {
    if a.Finish? {
      FinishKeepsLedger(c, s, a.i);
    } else if a.Check? && !s.workers[a.i].quit && s.tasks != [] {
      TakeKeepsLedger(c, s, a.i);
    } else {
      IdleKeepsLedger(c, s, a);
    }
  }

  // ---- wakeups ----

  /** Between the loop of kill_spares and its notify_all, and only then, a worker told to quit may
      still be in the wait set. */
  ghost predicate QuittersAwake(s: State)
  {
    !s.keeper.Scanning? ==> forall i :: 0 <= i < |s.workers| && s.workers[i].pc == Waiting ==> !s.workers[i].quit
  }

  lemma StepKeepsQuittersAwake(c: Config, s: State, a: Action)
    requires Enabled(s, a) && QuittersAwake(s)
    ensures QuittersAwake(Do(c, s, a))
  {
  }

  /** No wakeup is lost: while some live worker sleeps, every queued task has a live worker that is
      going to look at the queue without being notified again. */
  ghost predicate Wakeups(s: State)
  {
    !s.keeper.Scanning? && !NoneWaits(s.workers) ==> |s.tasks| <= Tally(WillCheck, s.workers)
  }

  lemma StepKeepsWakeups(c: Config, s: State, a: Action)
    requires Enabled(s, a) && Locks(s) && QuittersAwake(s) && Wakeups(s)
    ensures Wakeups(Do(c, s, a))
  {
    TallyStep(c, s, a, WillCheck);
  }
}
