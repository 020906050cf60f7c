/** The pool's own methods (include/gcm/thread/pool.h), as they run under the mutex when no other
    thread gets in between: each is a run of the steps of Pool. */
module PoolObject {
  import opened Pool
  import opened PoolKeeper

  // ---- one more step at the end of a run ----

  ghost predicate Reaches(c: Config, start: State, steps: seq<Action>, s: State)
  {
    IsRun(c, start, steps) && After(c, start, steps) == s
  }

  lemma Extend(c: Config, start: State, steps: seq<Action>, s: State, a: Action)
    requires Reaches(c, start, steps, s) && Enabled(s, a)
    ensures Reaches(c, start, steps + [a], Do(c, s, a))
  {
    RunExtends(c, start, steps, a);
  }

  lemma Begins(c: Config, s: State, a: Action)
    requires Enabled(s, a)
    ensures Reaches(c, s, [a], Do(c, s, a))
  {
    RunOne(c, s, a);
  }

  lemma BeginsToKill(c: Config, s: State)
    requires Enabled(s, KillSpares)
    ensures var toKill := KillCount(c, s.numFree + s.numStarting);
      Reaches(c, s, [KillSpares],
        if toKill > 0 then s.(keeper := Scanning(toKill, 0), mutex := ByKeeper) else s.(keeper := Between))
  {
    Begins(c, s, KillSpares);
  }

  lemma BeginsToStart(c: Config, s: State)
    requires Enabled(s, StartSpares)
    ensures var toStart := StartCount(c, s.numFree + s.numStarting, |s.list|);
      Reaches(c, s, [StartSpares], s.(keeper := Adding(Max(0, toStart)), mutex := ByKeeper))
  {
    Begins(c, s, StartSpares);
  }

  lemma StartsOne(c: Config, start: State, steps: seq<Action>, s: State) returns (n: State)
    requires Reaches(c, start, steps, s) && Enabled(s, StartOne)
    ensures Reaches(c, start, steps + [StartOne], n) && n ==
      s.(numStarting := s.numStarting + 1, workers := s.workers + [Worker(Starting, false)],
         list := s.list + [|s.workers|], keeper := Adding(s.keeper.toStart - 1))
  {
    Extend(c, start, steps, s, StartOne);
    n := Do(c, s, StartOne);
  }

  lemma StartsNoMore(c: Config, start: State, steps: seq<Action>, s: State) returns (n: State)
    requires Reaches(c, start, steps, s) && Enabled(s, StartDone)
    ensures Reaches(c, start, steps + [StartDone], n) && n == s.(keeper := Collecting, mutex := Free)
  {
    Extend(c, start, steps, s, StartDone);
    n := Do(c, s, StartDone);
  }

  // ---- how many a pass kills, and how many it starts ----

  /** Neither just starting nor with a task. */
  predicate Idle(pc: Pc)
  {
    pc != Starting && pc != Announced && !pc.Running? && pc != Finished
  }

  ghost predicate AllAsleep(s: State)
  {
    forall k :: 0 <= k < |s.list| ==> s.list[k] < |s.workers| && s.workers[s.list[k]].pc == Waiting
  }

  /** None of the workers listed before `at`, but perhaps the first, is idle. */
  ghost predicate NoneIdle(s: State, at: nat)
  {
    forall k :: 1 <= k < at && k < |s.list| && s.list[k] < |s.workers| ==> !Idle(s.workers[s.list[k]].pc)
  }

  /** What a pass that has decided on `toKill` workers comes to: it kills that many, or all that are
      idle after the first; of a list that is all asleep it kills all but one, or the only one. */
  ghost predicate KillsEnough(start: State, toKill: int, s: State)
  {
    var killed := |start.list| - |s.list|;
    && 0 <= killed <= Max(0, toKill) && |s.collect| == |start.collect| + killed
    && (killed < toKill ==> NoneIdle(s, |s.list|))
    && (start.list != [] && AllAsleep(start) ==> killed == Min(Max(0, toKill), Max(1, |start.list| - 1)))
  }

  ghost predicate Passed(start: State, toKill: int, s: State)
  {
    && s.keeper.Scanning? && toKill - s.keeper.toKill == |start.list| - |s.list| == |s.collect| - |start.collect|
    && |s.list| <= |start.list| && NoneIdle(s, s.keeper.at)
    && (start.list != [] && AllAsleep(start) ==>
          && AllAsleep(s)
          && if s.keeper.at == 0 then s.list == start.list
             else s.keeper.at == 1 && |s.list| < |start.list| && (s.list != [] || |start.list| == 1))
  }

  lemma PassStep(c: Config, start: State, toKill: int, s: State)
    requires Passed(start, toKill, s) && Enabled(s, Scan)
    ensures Passed(start, toKill, Do(c, s, Scan))
  {
    var n, at := Do(c, s, Scan), s.keeper.at;
    var i := s.list[at];
    assert |n.workers| == |s.workers| && forall j :: 0 <= j < |s.workers| ==> n.workers[j].pc == s.workers[j].pc;
    if i < |s.workers| && Idle(s.workers[i].pc) {
      assert |n.list| == |s.list| - 1 && n.keeper.at == 1;
      assert forall k :: 0 <= k < |n.list| ==> n.list[k] == s.list[if k < at then k else k + 1];
    }
  }

  lemma PassEnds(c: Config, start: State, toKill: int, s: State)
    requires Passed(start, toKill, s) && Enabled(s, ScanDone)
    ensures KillsEnough(start, toKill, Do(c, s, ScanDone))
  {
    var n := Do(c, s, ScanDone);
    assert forall j :: 0 <= j < |s.workers| ==> Idle(n.workers[j].pc) == Idle(s.workers[j].pc);
  }

  lemma NoPass(start: State, toKill: int)
    requires toKill <= 0
    ensures KillsEnough(start, toKill, start.(keeper := Between))
  {
  }

  lemma PassBegins(start: State, toKill: int)
    requires toKill > 0
    ensures Passed(start, toKill, start.(keeper := Scanning(toKill, 0), mutex := ByKeeper))
  {
  }

  lemma PassOn(c: Config, start: State, steps: seq<Action>, toKill: int, s: State)
    requires Reaches(c, start, steps, s) && Passed(start, toKill, s) && Enabled(s, Scan)
    ensures Reaches(c, start, steps + [Scan], Do(c, s, Scan)) && Passed(start, toKill, Do(c, s, Scan))
  {
    Extend(c, start, steps, s, Scan);
    PassStep(c, start, toKill, s);
  }

  lemma WakesAll(c: Config, start: State, steps: seq<Action>, toKill: int, s: State) returns (n: State)
    requires Reaches(c, start, steps, s) && Passed(start, toKill, s) && Enabled(s, ScanDone)
    ensures Reaches(c, start, steps + [ScanDone], n) && KillsEnough(start, toKill, n)
    ensures n == s.(workers := WakeAll(s.workers), keeper := Between, mutex := Free)
  {
    Extend(c, start, steps, s, ScanDone);
    PassEnds(c, start, toKill, s);
    n := Do(c, s, ScanDone);
  }

  /** `n` workers more, which are just starting. */
  ghost predicate StartsMore(start: State, n: int, s: State)
  {
    && n >= 0 && s.numStarting == start.numStarting + n
    && s.workers == start.workers + seq(n, i requires 0 <= i < n => Worker(Starting, false))
    && s.list == start.list + seq(n, i requires 0 <= i < n => |start.workers| + i)
  }

  lemma OneMoreStarted(c: Config, start: State, n: int, s: State)
    requires StartsMore(start, n, s) && Enabled(s, StartOne)
    ensures StartsMore(start, n + 1, Do(c, s, StartOne))
  {
  }

  class ThreadPool {
    const config: Config
    var tasks: seq<Task>
    var workers: seq<Worker>
    var list: seq<nat>
    var collect: seq<nat>
    var numFree: int
    var numBusy: int
    var numStarting: int
    // history
    var added: seq<Task>
    var taken: seq<Taken>
    var over: seq<nat>

    constructor (config: Config)
      ensures this.config == config && View(Resting, Free) == Init()
    {
      this.config := config;
      tasks, workers, list, collect := [], [], [], [];
      numFree, numBusy, numStarting := 0, 0, 0;
      added, taken, over := [], [], [];
    }

    /** The state of the transition system, given where the keeper is and who holds the mutex. */
    function View(keeper: Keeper, mutex: Mutex): State
      reads this
    {
      State(tasks, workers, list, collect, mutex, numFree, numBusy, numStarting, keeper, added, taken, over)
    }

    /** `wake` is the waiting worker that notify_one picks, when there is one. */
    method AddWork(t: Task, wake: nat)
      requires NoneWaits(workers) || (wake < |workers| && workers[wake].pc == Waiting)
      modifies this
      ensures forall k :: View(k, Free) == Do(config, old(View(k, Free)), Pool.AddWork(t, wake))
    {
      if !NoneWaits(workers) {
        workers := workers[wake := workers[wake].(pc := Woken)];
      }
      tasks := tasks + [t];
      added := added + [t];
    }

    method CountToKill() returns (toKill: int)
      requires MachineHolds(View(Resting, Free))
      ensures var s := View(Resting, Free);
        Reaches(config, s, [Action.KillSpares],
          if toKill > 0 then s.(keeper := Scanning(toKill, 0), mutex := ByKeeper) else s.(keeper := Between))
      ensures toKill == KillCount(config, numFree + numStarting)
    {
      toKill := Int32(SizeT((numFree + numStarting) - config.minSpare));
      BeginsToKill(config, View(Resting, Free));
    }

    /** One round of the loop of kill_spares: the worker at `at` is told to quit if it is free, and
        the iteration then starts again from the front, one further on. */
    method LookAt(toKill: int, at: nat) returns (left: nat, next: nat)
      requires toKill > 0 && at < |list|
      modifies this`workers, this`collect, this`list
      ensures View(Scanning(left, next), ByKeeper) == Do(config, old(View(Scanning(toKill, at), ByKeeper)), Scan)
      ensures left < toKill || (left == toKill && |list| - next < old(|list|) - at)
    {
      var i := list[at];
      if i < |workers| && LooksFree(workers[i]) {
        workers := workers[i := workers[i].(quit := true)];
        collect := collect + [i];
        list := list[..at] + list[at + 1..];
        left, next := toKill - 1, 1;
      } else {
        left, next := toKill, at + 1;
      }
    }

    /** The loop of kill_spares, and the notification after it. */
    method Pass(decided: nat, ghost start: State) returns (ghost steps: seq<Action>)
      requires start == View(Resting, Free) && decided > 0
      requires Reaches(config, start, [Action.KillSpares], View(Scanning(decided, 0), ByKeeper))
      modifies this`workers, this`collect, this`list
      ensures Reaches(config, start, steps, View(Between, Free)) && KillsEnough(start, decided, View(Between, Free))
    {
      var toKill: nat, at: nat := decided, 0;
      steps := [Action.KillSpares];
      PassBegins(start, decided);
      while toKill > 0 && at < |list|
        invariant Reaches(config, start, steps, View(Scanning(toKill, at), ByKeeper))
        invariant Passed(start, decided, View(Scanning(toKill, at), ByKeeper))
        decreases toKill, |list| - at
      {
        PassOn(config, start, steps, decided, View(Scanning(toKill, at), ByKeeper));
        toKill, at := LookAt(toKill, at);
        steps := steps + [Scan];
      }
      ghost var s := WakesAll(config, start, steps, decided, View(Scanning(toKill, at), ByKeeper));
      steps := steps + [ScanDone];
      workers := WakeAll(workers);
      assert s == View(Between, Free);
    }

    /** A pass kills as many workers as it decides to, unless it runs out of idle ones. */
    method KillSpares() returns (ghost steps: seq<Action>)
      requires MachineHolds(View(Resting, Free))
      modifies this
      ensures Reaches(config, old(View(Resting, Free)), steps, View(Between, Free))
      ensures KillsEnough(old(View(Resting, Free)), KillCount(config, old(numFree + numStarting)), View(Between, Free))
    {
      ghost var start := View(Resting, Free);
      var toKill := CountToKill();
      if toKill > 0 {
        steps := Pass(toKill, start);
      } else {
        steps := [Action.KillSpares];
        NoPass(start, toKill);
      }
    }

    /** The number that start_spares decides on; it is negative when nothing is to be started. */
    method CountToStart() returns (toStart: int)
      requires MachineHolds(View(Between, Free))
      ensures var s := View(Between, Free);
        Reaches(config, s, [Action.StartSpares], s.(keeper := Adding(Max(0, toStart)), mutex := ByKeeper))
      ensures Max(0, toStart) == Max(0, StartCount(config, numFree + numStarting, |list|))
    {
      toStart := Int32(SizeT(config.minSpare - numFree - numStarting));
      if SizeT(|list| + SizeT(toStart)) > config.maxWorkers {
        toStart := Int32(SizeT(config.maxWorkers - |list|));
      }
      BeginsToStart(config, View(Between, Free));
    }

    method StartSpares() returns (ghost steps: seq<Action>)
      requires MachineHolds(View(Between, Free))
      modifies this
      ensures Reaches(config, old(View(Between, Free)), steps, View(Collecting, Free))
      ensures var toStart := StartCount(config, old(numFree + numStarting), old(|list|));
        StartsMore(old(View(Between, Free)), Max(0, toStart), View(Collecting, Free))
    {
      ghost var start := View(Between, Free);
      var toStart := CountToStart();
      ghost var decided := toStart;
      steps := [Action.StartSpares];
      ghost var s := start.(keeper := Adding(Max(0, toStart)), mutex := ByKeeper);
      while toStart > 0
        invariant s == View(Adding(Max(0, toStart)), ByKeeper) && Reaches(config, start, steps, s)
        invariant StartsMore(start, Max(0, decided) - Max(0, toStart), s)
      {
        OneMoreStarted(config, start, Max(0, decided) - toStart, s);
        s := StartsOne(config, start, steps, s);
        steps := steps + [StartOne];
        numStarting := numStarting + 1;
        list := list + [|workers|];
        workers := workers + [Worker(Starting, false)];
        toStart := toStart - 1;
      }
      s := StartsNoMore(config, start, steps, s);
      steps := steps + [StartDone];
      assert s == View(Collecting, Free);
    }
  }
}
