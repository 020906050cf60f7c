/** The keeper thread: how many workers it kills and starts, with the machine arithmetic of the
    source, and what holds of every run of the pool. */
module PoolKeeper {
  import opened Pool
  import opened PoolSafety

  // ---- arithmetic ----

  function Max(a: int, b: int): int { if a < b then b else a }

  function Min(a: int, b: int): int { if a < b then a else b }

  lemma Int32IsExact(x: int)
    ensures Int32(x) == x <==> -0x8000_0000 <= x < 0x8000_0000
  {
  }

  lemma Int32OfSizeT(x: int)
    ensures Int32(SizeT(x)) == Int32(x)
  {
    var q := x / 0x1_0000_0000_0000_0000;
    assert SizeT(x) == x - q * 0x1_0000_0000_0000_0000;
    Shift(x + 0x8000_0000, -q * 0x1_0000_0000);
  }

  lemma Shift(x: int, k: int)
    ensures (x + k * 0x1_0000_0000) % 0x1_0000_0000 == x % 0x1_0000_0000
  {
  }

  /** The number to kill is the true surplus exactly when the surplus is an int; so it is for every
      reachable counter value when min_spare is at most 2^31. */
  lemma KillCountIsExact(c: Config, spare: int)
    ensures KillCount(c, spare) == spare - c.minSpare <==> -0x8000_0000 <= spare - c.minSpare < 0x8000_0000
  {
    Int32OfSizeT(spare - c.minSpare);
    Int32IsExact(spare - c.minSpare);
  }

  lemma StartCountFits(c: Config, spare: int, size: nat)
    requires size <= c.maxWorkers && size < 0x8000_0000_0000_0000
    ensures size + Max(0, StartCount(c, spare, size)) <= c.maxWorkers
  {
    var toStart := Int32(SizeT(c.minSpare - spare));
    if SizeT(size + SizeT(toStart)) > c.maxWorkers {
      var room := c.maxWorkers - size;
      Int32OfSizeT(room);
      assert Int32(room) <= room;
    } else if toStart > 0 {
      assert SizeT(toStart) == toStart;
      assert SizeT(size + toStart) == size + toStart;
    }
  }

  /** The deficit as an int: itself when an int can hold it. */
  function Deficit(c: Config, spare: int): (d: int)
    ensures d == c.minSpare - spare <==> -0x8000_0000 <= c.minSpare - spare < 0x8000_0000
  {
    Int32(c.minSpare - spare)
  }

  /** A pass starts the smaller of the deficit and the room left, and none when there is no deficit;
      but when more workers are counted as spare, above the minimum, than the list holds, the sum
      in the guard wraps past max_workers and the list is filled up instead. */
  lemma StartCountIsExact(c: Config, spare: int, size: nat)
    requires size <= c.maxWorkers < 0x1_0000_0000_0000_0000 && size < 0x8000_0000_0000_0000
    ensures var d, room := Deficit(c, spare), c.maxWorkers - size;
      var wraps := size + d < 0 && c.maxWorkers < 0x1_0000_0000_0000_0000 + size + d;
      && (Max(0, StartCount(c, spare, size)) == Max(0, Min(d, room)) <==> !wraps || Int32(room) <= 0)
      && (wraps ==> StartCount(c, spare, size) == Int32(room))
  {
    var d, room := Deficit(c, spare), c.maxWorkers - size;
    Int32OfSizeT(c.minSpare - spare);
    Int32OfSizeT(room);
    SumInSizeT(size, d);
    if d >= 0 && size + d > c.maxWorkers { Int32IsExact(room); }
  }

  lemma SumInSizeT(size: nat, d: int)
    requires size < 0x8000_0000_0000_0000 && -0x8000_0000 <= d < 0x8000_0000
    ensures SizeT(size + SizeT(d)) == if size + d >= 0 then size + d else 0x1_0000_0000_0000_0000 + size + d
  {
    if d >= 0 {
      assert SizeT(d) == d;
    } else {
      assert SizeT(d) == d + 0x1_0000_0000_0000_0000;
    }
  }

  // ---- spare workers ----

  /** With min_spare == 0 no worker is ever started. */
  ghost predicate Spawned(c: Config, s: State)
  {
    c.minSpare == 0 ==>
      s.workers == [] && s.list == [] && !s.keeper.Scanning? && (s.keeper.Adding? ==> s.keeper.toStart == 0)
  }

  lemma StepKeepsSpawned(c: Config, s: State, a: Action)
    requires Enabled(s, a) && Counters(s) && Spawned(c, s)
    ensures Spawned(c, Do(c, s, a))
  {
    if c.minSpare == 0 && a.StartSpares? {
      assert StartCount(c, 0, 0) == 0;
    }
  }

  /** While kill_spares has `toKill` workers to go, killing them leaves min_spare; and the position
      it steps to is one of the list or its end. */
  ghost predicate Spares(c: Config, s: State)
  {
    s.keeper.Scanning? ==> Tally(IsSpare, s.workers) >= c.minSpare + s.keeper.toKill && s.keeper.at <= |s.list|
  }

  lemma SpareIsListed(s: State)
    requires Listed(s) && Tally(IsSpare, s.workers) > 0
    ensures s.list != []
  {
    TallyFinds(IsSpare, s.workers);
  }

  lemma KillKeepsSpares(c: Config, s: State)
    requires c.minSpare <= 0x8000_0000
    requires Enabled(s, KillSpares) && Counters(s) && Collected(s)
    ensures Spares(c, Do(c, s, KillSpares))
  {
    SpareIsFreeOrStarting(s.workers);
    KillCountIsExact(c, s.numFree + s.numStarting);
  }

  lemma ScanKeepsSpares(c: Config, s: State)
    requires Enabled(s, Scan) && Listed(s) && Quitters(s) && Spawned(c, s) && Spares(c, s)
    ensures Spares(c, Do(c, s, Scan))
  {
    var n, i := Do(c, s, Scan), s.list[s.keeper.at];
    TallyStep(c, s, Scan, IsSpare);
    assert QuitterOk(s.workers[i]);
    if LooksFree(s.workers[i]) {
      assert c.minSpare > 0;
      StepKeepsListed(c, s, Scan);
      SpareIsListed(n);
    }
  }

  lemma StepKeepsSpares(c: Config, s: State, a: Action)
    requires c.minSpare <= 0x8000_0000
    requires Enabled(s, a) && Counters(s) && Locks(s) && Listed(s) && Collected(s) && Quitters(s)
    requires Spawned(c, s) && Spares(c, s)
    ensures Spares(c, Do(c, s, a))
  {
    if a.KillSpares? {
      KillKeepsSpares(c, s);
    } else if a.Scan? {
      ScanKeepsSpares(c, s);
    } else {
      TallyStep(c, s, a, IsSpare);
    }
  }

  // ---- the size of the list ----

  ghost predicate Bounded(c: Config, s: State)
  {
    |s.list| + (if s.keeper.Adding? then s.keeper.toStart else 0) <= c.maxWorkers
  }

  lemma StepKeepsBounded(c: Config, s: State, a: Action)
    requires Enabled(s, a) && Bounded(c, s)
    ensures Bounded(c, Do(c, s, a))
  {
    if a.StartSpares? {
      StartCountFits(c, s.numFree + s.numStarting, |s.list|);
    }
  }

  // ---- every run ----

  ghost predicate Inv(c: Config, s: State)
  {
    && Counters(s) && Locks(s) && Listed(s) && Collected(s) && Quitters(s)
    && Ledger(s) && QuittersAwake(s) && Wakeups(s)
    && Spawned(c, s) && (c.minSpare <= 0x8000_0000 ==> Spares(c, s)) && Bounded(c, s)
  }

  lemma StepKeepsInv(c: Config, s: State, a: Action)
    requires Enabled(s, a) && Inv(c, s)
    ensures Inv(c, Do(c, s, a))
  {
    StepKeepsCounters(c, s, a);
    StepKeepsLocks(c, s, a);
    StepKeepsListed(c, s, a);
    StepKeepsCollected(c, s, a);
    StepKeepsQuitters(c, s, a);
    StepKeepsLedger(c, s, a);
    StepKeepsQuittersAwake(c, s, a);
    StepKeepsWakeups(c, s, a);
    StepKeepsSpawned(c, s, a);
    if c.minSpare <= 0x8000_0000 { StepKeepsSpares(c, s, a); }
    StepKeepsBounded(c, s, a);
  }

  lemma {:induction false} RunsKeepInv(c: Config, s: State, actions: seq<Action>)
    requires Inv(c, s) && IsRun(c, s, actions)
    ensures Inv(c, After(c, s, actions))
    decreases actions
  {
    if actions != [] {
      StepKeepsInv(c, s, actions[0]);
      RunsKeepInv(c, Do(c, s, actions[0]), actions[1..]);
    }
  }

  ghost predicate Reachable(c: Config, s: State)
  {
    exists actions :: IsRun(c, Init(), actions) && After(c, Init(), actions) == s
  }

  lemma InitInv(c: Config)
    ensures Inv(c, Init())
  {
    assert Counters(Init());
    assert Ledger(Init());
  }

  lemma ReachableInv(c: Config, s: State)
    requires Reachable(c, s)
    ensures Inv(c, s)
  {
    InitInv(c);
    var actions :| IsRun(c, Init(), actions) && After(c, Init(), actions) == s;
    RunsKeepInv(c, Init(), actions);
  }

  /** With the mutex free and some worker asleep that was not told to quit, the queue holds no more
      tasks than there are such workers about to look at it by themselves. */
  lemma NoLostWakeup(c: Config, s: State, sleeper: nat)
    requires Reachable(c, s) && s.mutex == Free
    requires At(s, sleeper, Waiting)
    ensures !s.workers[sleeper].quit
    ensures |s.tasks| <= Tally(WillCheck, s.workers)
  {
    ReachableInv(c, s);
  }

  /** So a queued task does not wait for a notification: when the mutex is free and some worker that was
      not told to quit is waiting for it or asleep, two steps of one worker are enough to take it. */
  lemma QueuedTaskIsTaken(c: Config, s: State, idle: nat) returns (i: nat)
    requires Reachable(c, s) && s.mutex == Free && s.tasks != []
    requires idle < |s.workers| && !s.workers[idle].quit
    requires s.workers[idle].pc in {Locking, Waiting, Woken}
    ensures IsRun(c, s, [Lock(i), Check(i)])
    ensures var n := After(c, s, [Lock(i), Check(i)]);
      && n.tasks == s.tasks[1..] && n.taken == s.taken + [Taken(i, s.tasks[0])]
      && At(n, i, Running(|s.taken|)) && n.mutex == Free
  {
    ReachableInv(c, s);
    if s.workers[idle].pc == Waiting {
      NoLostWakeup(c, s, idle);
      TallyFinds(WillCheck, s.workers);
      i :| 0 <= i < |s.workers| && In(WillCheck, s.workers[i]);
    } else {
      i := idle;
    }
    TakesTask(c, s, i);
  }

  lemma TakesTask(c: Config, s: State, i: nat)
    requires s.mutex == Free && s.tasks != [] && Locks(s) && i < |s.workers| && In(WillCheck, s.workers[i])
    ensures IsRun(c, s, [Lock(i), Check(i)])
    ensures var n := After(c, s, [Lock(i), Check(i)]);
      && n.tasks == s.tasks[1..] && n.taken == s.taken + [Taken(i, s.tasks[0])]
      && At(n, i, Running(|s.taken|)) && n.mutex == Free
  {
    var m := Do(c, s, Lock(i));
    assert [Lock(i), Check(i)][1..] == [Check(i)] && [Check(i)][1..] == [];
    assert After(c, s, [Lock(i), Check(i)]) == After(c, m, [Check(i)]) == Do(c, m, Check(i));
  }

  /** Tasks are neither lost nor reordered, and each one taken is over or run by one worker. */
  lemma TasksAreConserved(c: Config, s: State)
    requires Reachable(c, s)
    ensures s.added == TasksOf(s.taken) + s.tasks
    ensures forall k :: 0 <= k < |s.taken| ==> (k in s.over) != At(s, s.taken[k].worker, Running(k))
    ensures forall i :: 0 <= i < |s.workers| && s.workers[i].pc.Running? ==>
              s.workers[i].pc.ticket < |s.taken| && s.taken[s.workers[i].pc.ticket].worker == i
    ensures forall j, k :: 0 <= j < k < |s.over| ==> s.over[j] != s.over[k]
  {
    ReachableInv(c, s);
    forall k | 0 <= k < |s.taken| ensures (k in s.over) != At(s, s.taken[k].worker, Running(k)) {
      assert Placed(s, k);
      if At(s, s.taken[k].worker, Running(k)) { assert RunnerOk(s, s.taken[k].worker); }
    }
    forall i | 0 <= i < |s.workers| && s.workers[i].pc.Running?
      ensures s.workers[i].pc.ticket < |s.taken| && s.taken[s.workers[i].pc.ticket].worker == i
    {
      assert RunnerOk(s, i);
    }
  }

  lemma CountersAreExact(c: Config, s: State)
    requires Reachable(c, s)
    ensures s.numFree == Tally(IsFree, s.workers)
    ensures s.numBusy == Tally(IsBusy, s.workers)
    ensures s.numStarting == Tally(IsStarting, s.workers)
  {
    ReachableInv(c, s);
  }

  lemma ListIsBounded(c: Config, s: State)
    requires Reachable(c, s)
    ensures |s.list| <= c.maxWorkers
  {
    ReachableInv(c, s);
  }

  /** While the keeper kills, and when it is done, min_spare live spare workers remain, and the list
      is never emptied under its iterator. */
  lemma NeverOverkills(c: Config, s: State)
    requires Reachable(c, s) && s.keeper.Scanning? && c.minSpare <= 0x8000_0000
    ensures Tally(IsSpare, s.workers) >= c.minSpare
    ensures s.list != [] && s.keeper.at <= |s.list|
    ensures Enabled(s, ScanDone) ==> Tally(IsSpare, Do(c, s, ScanDone).workers) >= c.minSpare
  {
    ReachableInv(c, s);
    SpareIsListed(s);
    if Enabled(s, ScanDone) { TallyStep(c, s, ScanDone, IsSpare); }
  }

  // ---- joining ----

  /** What a worker that was told to quit still has to do. */
  function LastSteps(pc: Pc, i: nat): seq<Action>
  {
    match pc
    case Locking => [Lock(i), Check(i), Leave(i)]
    case Woken => [Lock(i), Check(i), Leave(i)]
    case Leaving => [Leave(i)]
    case _ => []
  }

  lemma QuitterLeaves(c: Config, s: State, i: nat)
    requires i < |s.workers| && s.workers[i].quit && MayQuit(s.workers[i].pc)
    requires s.mutex == Free && s.workers[i].pc != Checking && s.workers[i].pc != Waiting
    ensures var steps := LastSteps(s.workers[i].pc, i);
      && IsRun(c, s, steps)
      && At(After(c, s, steps), i, Gone)
      && After(c, s, steps).keeper == s.keeper && After(c, s, steps).collect == s.collect
  {
    match s.workers[i].pc
    case Leaving => RunOne(c, s, Leave(i));
    case Gone =>
    case _ => LockedQuitterLeaves(c, s, i);
  }

  lemma LockedQuitterLeaves(c: Config, s: State, i: nat)
    requires i < |s.workers| && s.workers[i].quit && s.mutex == Free
    requires s.workers[i].pc == Locking || s.workers[i].pc == Woken
    ensures IsRun(c, s, [Lock(i), Check(i), Leave(i)])
    ensures var n := After(c, s, [Lock(i), Check(i), Leave(i)]);
      At(n, i, Gone) && n.keeper == s.keeper && n.collect == s.collect
  {
    var s1 := Do(c, s, Lock(i));
    var s2 := Do(c, s1, Check(i));
    RunThree(c, s, Lock(i), Check(i), Leave(i));
  }

  lemma LastCollectedQuits(c: Config, s: State)
    requires Reachable(c, s) && s.keeper == Collecting && s.mutex == Free && s.collect != []
    ensures var i := s.collect[|s.collect| - 1];
      && i < |s.workers| && s.workers[i].quit && MayQuit(s.workers[i].pc)
      && s.workers[i].pc != Checking && s.workers[i].pc != Waiting
  {
    ReachableInv(c, s);
    assert QuitterOk(s.workers[s.collect[|s.collect| - 1]]);
  }

  /** The keeper's join waits for no task: once the mutex is free, the worker it joins ends by at
      most three steps of its own, none of which runs a task. */
  lemma JoinWaitsForNoTask(c: Config, s: State)
    requires Reachable(c, s) && s.keeper == Collecting && s.mutex == Free && s.collect != []
    ensures var i := s.collect[|s.collect| - 1];
      && i < |s.workers|
      && var steps := LastSteps(s.workers[i].pc, i);
      && IsRun(c, s, steps) && Enabled(After(c, s, steps), Join)
  {
    LastCollectedQuits(c, s);
    QuitterLeaves(c, s, s.collect[|s.collect| - 1]);
  }

  lemma RunOne(c: Config, s: State, a: Action)
    requires Enabled(s, a)
    ensures IsRun(c, s, [a]) && After(c, s, [a]) == Do(c, s, a)
  {
    assert [a][1..] == [];
  }

  lemma RunThree(c: Config, s: State, a1: Action, a2: Action, a3: Action)
    requires Enabled(s, a1) && Enabled(Do(c, s, a1), a2) && Enabled(Do(c, Do(c, s, a1), a2), a3)
    ensures IsRun(c, s, [a1, a2, a3])
    ensures After(c, s, [a1, a2, a3]) == Do(c, Do(c, Do(c, s, a1), a2), a3)
  {
    assert [a1, a2, a3][1..] == [a2, a3] && [a2, a3][1..] == [a3];
    RunOne(c, Do(c, Do(c, s, a1), a2), a3);
  }

  // ---- a pass that refills the pool ----

  lemma {:induction false} RunExtends(c: Config, s: State, actions: seq<Action>, a: Action)
    requires IsRun(c, s, actions) && Enabled(After(c, s, actions), a)
    ensures IsRun(c, s, actions + [a])
    ensures After(c, s, actions + [a]) == Do(c, After(c, s, actions), a)
    decreases actions
  {
    if actions == [] {
      assert [] + [a] == [a];
      RunOne(c, s, a);
    } else {
      assert (actions + [a])[1..] == actions[1..] + [a];
      RunExtends(c, Do(c, s, actions[0]), actions[1..], a);
    }
  }

  lemma StepReaches(c: Config, s: State, a: Action) returns (n: State)
    requires Reachable(c, s) && Enabled(s, a)
    ensures Reachable(c, n) && n == Do(c, s, a)
  {
    var actions :| IsRun(c, Init(), actions) && After(c, Init(), actions) == s;
    RunExtends(c, Init(), actions, a);
    n := Do(c, s, a);
  }

  /** The first n workers, all busy, between the two halves of a keeper pass. */
  ghost predicate AllBusy(s: State, n: nat)
  {
    && s.keeper == Between && s.mutex == Free && s.tasks == [] && s.collect == []
    && s.numFree == 0 && s.numStarting == 0
    && |s.workers| == |s.list| == n
    && (forall i :: 0 <= i < n ==> s.list[i] == i && !s.workers[i].quit && s.workers[i].pc.Running?)
  }

  predicate IsSmall(c: Config) { c.minSpare == 1 && c.maxWorkers == 3 }

  /** What a keeper pass starts and kills in a pool of this size. */
  lemma SmallCounts(c: Config, spare: nat, size: nat)
    requires IsSmall(c) && spare <= 3 && size <= 3
    ensures KillCount(c, spare) == spare - 1
    ensures spare == 0 ==> Max(0, StartCount(c, 0, size)) == Min(1, 3 - size)
    ensures spare == 3 && size == 1 ==> StartCount(c, 3, 1) == 2
  {
    KillCountIsExact(c, spare);
    StartCountIsExact(c, spare, size);
    Int32IsExact(c.maxWorkers - size);
  }

  /** StartSpares, with the number it decides on already known. */
  lemma StartSparesReaches(c: Config, s: State, k: nat) returns (n: State)
    requires Reachable(c, s) && Enabled(s, StartSpares)
    requires Max(0, StartCount(c, s.numFree + s.numStarting, |s.list|)) == k
    ensures Reachable(c, n) && n == Do(c, s, StartSpares) == s.(keeper := Adding(k), mutex := ByKeeper)
  {
    n := StepReaches(c, s, StartSpares);
  }

  lemma KillSparesReaches(c: Config, s: State, k: int) returns (n: State)
    requires Reachable(c, s) && Enabled(s, KillSpares)
    requires KillCount(c, s.numFree + s.numStarting) == k
    ensures Reachable(c, n)
    ensures n == if k > 0 then s.(keeper := Scanning(k, 0), mutex := ByKeeper) else s.(keeper := Between)
  {
    n := StepReaches(c, s, KillSpares);
  }

  lemma OneMoreStarts(c: Config, s: State, n: nat) returns (r: State)
    requires IsSmall(c) && Reachable(c, s) && AllBusy(s, n) && n < 3
    ensures Reachable(c, r) && r.keeper == Between && r.mutex == Free && r.tasks == [] && r.collect == []
    ensures r.numFree == 0 && r.numStarting == 1
    ensures r.workers == s.workers + [Worker(Starting, false)] && r.list == s.list + [n]
  {
    SmallCounts(c, 0, n);
    SmallCounts(c, 1, n + 1);
    r := StartSparesReaches(c, s, 1);
    r := StepReaches(c, r, StartOne);
    r := StepReaches(c, r, StartDone);
    r := StepReaches(c, r, Rest);
    r := KillSparesReaches(c, r, 0);
  }

  lemma OneMoreBusy(c: Config, s: State, n: nat) returns (r: State)
    requires IsSmall(c) && Reachable(c, s) && AllBusy(s, n) && n < 3
    ensures Reachable(c, r) && AllBusy(r, n + 1)
  {
    r := OneMoreStarts(c, s, n);
    assert r.workers[n] == Worker(Starting, false);
    assert NoneWaits(r.workers);
    r := StepReaches(c, r, AddWork(0, 0));
    r := StepReaches(c, r, Announce(n));
    r := StepReaches(c, r, SetFree(n));
    r := StepReaches(c, r, Lock(n));
    r := StepReaches(c, r, Check(n));
  }

  /** A task ends and its worker is free again. */
  lemma OneMoreFree(c: Config, s: State, i: nat) returns (r: State)
    requires Reachable(c, s) && i < |s.workers| && s.workers[i].pc.Running?
    ensures Reachable(c, r)
    ensures r == s.(workers := s.workers[i := s.workers[i].(pc := Locking)], numFree := s.numFree + 1,
                    numBusy := s.numBusy - 1, over := s.over + [s.workers[i].pc.ticket])
  {
    r := StepReaches(c, s, Finish(i));
    r := StepReaches(c, r, Announce(i));
    r := StepReaches(c, r, SetFree(i));
    assert r.workers == s.workers[i := s.workers[i].(pc := Locking)];
  }

  lemma ThreeBusy(c: Config) returns (s: State)
    requires IsSmall(c)
    ensures Reachable(c, s) && AllBusy(s, 3)
  {
    assert IsRun(c, Init(), []) && After(c, Init(), []) == Init();
    SmallCounts(c, 0, 0);
    s := KillSparesReaches(c, Init(), -1);
    s := OneMoreBusy(c, s, 0);
    s := OneMoreBusy(c, s, 1);
    s := OneMoreBusy(c, s, 2);
  }

  lemma FullPass(c: Config, s: State) returns (r: State)
    requires IsSmall(c) && Reachable(c, s) && AllBusy(s, 3)
    ensures Reachable(c, r) && r == s.(keeper := Resting)
  {
    SmallCounts(c, 0, 3);
    r := StartSparesReaches(c, s, 0);
    r := StepReaches(c, r, StartDone);
    r := StepReaches(c, r, Rest);
  }

  lemma ThreeFree(c: Config) returns (s: State)
    requires IsSmall(c)
    ensures Reachable(c, s) && s.keeper == Resting && s.mutex == Free && s.tasks == []
    ensures s.list == [0, 1, 2] && |s.workers| == 3 && s.numFree == 3 && s.numStarting == 0
    ensures forall i :: 0 <= i < 3 ==> s.workers[i] == Worker(Locking, false)
  {
    s := ThreeBusy(c);
    s := FullPass(c, s);
    s := OneMoreFree(c, s, 0);
    s := OneMoreFree(c, s, 1);
    s := OneMoreFree(c, s, 2);
  }

  lemma ScanKills(c: Config, s: State, i: nat) returns (r: State)
    requires Reachable(c, s) && Enabled(s, Scan) && s.list[s.keeper.at] == i
    requires i < |s.workers| && s.workers[i] == Worker(Locking, false)
    ensures Reachable(c, r)
    ensures r == s.(workers := s.workers[i := Worker(Locking, true)], collect := s.collect + [i],
                    list := s.list[..s.keeper.at] + s.list[s.keeper.at + 1..],
                    keeper := Scanning(s.keeper.toKill - 1, 1))
  {
    r := StepReaches(c, s, Scan);
  }

  /** Two of the three are killed; they have not left yet. */
  lemma TwoKilled(c: Config) returns (s: State)
    requires IsSmall(c)
    ensures Reachable(c, s) && s.keeper == Between && s.mutex == Free && s.tasks == []
    ensures |s.list| == 1 && s.numFree == 3 && s.numStarting == 0
    ensures s.workers == [Worker(Locking, true), Worker(Locking, false), Worker(Locking, true)]
  {
    s := ThreeFree(c);
    SmallCounts(c, 3, 1);
    s := KillSparesReaches(c, s, 2);
    s := ScanKills(c, s, 0);
    s := ScanKills(c, s, 2);
    s := StepReaches(c, s, ScanDone);
  }

  lemma OneSpare(ws: seq<Worker>)
    requires ws == [Worker(Locking, true), Worker(Locking, false), Worker(Locking, true)]
    ensures Tally(IsSpare, ws) == 1
  {
    assert ws[1..] == [Worker(Locking, false), Worker(Locking, true)];
    assert ws[1..][1..] == [Worker(Locking, true)];
    assert ws[1..][1..][1..] == [];
    assert Tally(IsSpare, ws[1..][1..]) == 0;
  }

  /** A pool that has its min_spare live spare workers nevertheless starts two more right after it
      killed two, because the killed ones are still counted. */
  lemma RefillAfterKill(c: Config) returns (s: State)
    requires IsSmall(c)
    ensures Reachable(c, s) && Enabled(s, StartSpares)
    ensures Tally(IsSpare, s.workers) == c.minSpare && s.tasks == []
    ensures Do(c, s, StartSpares).keeper == Adding(2)
  {
    s := TwoKilled(c);
    SmallCounts(c, 3, 1);
    var r := StartSparesReaches(c, s, 2);
    OneSpare(s.workers);
  }

  // ---- a min_spare that no int can hold ----

  predicate IsHuge(c: Config) { c.minSpare == 0xFFFF_FFFF && c.maxWorkers == 1 }

  lemma HugeKills(c: Config)
    requires IsHuge(c)
    ensures KillCount(c, 0) == 1 && KillCount(c, 1) == 2
  {
    Int32OfSizeT(-0xFFFF_FFFF);
    Int32OfSizeT(-0xFFFF_FFFE);
  }

  lemma HugeStarts(c: Config)
    requires IsHuge(c)
    ensures StartCount(c, 0, 0) == 1
  {
    Int32OfSizeT(0xFFFF_FFFF);
    Int32OfSizeT(1);
    SumInSizeT(0, -1);
  }

  lemma EmptyPass(c: Config) returns (s: State)
    requires IsHuge(c)
    ensures Reachable(c, s) && s == Init().(keeper := Between)
  {
    var start := Init();
    assert IsRun(c, start, []) && After(c, start, []) == start;
    assert KillCount(c, 0) == 1 by { HugeKills(c); }
    s := KillSparesReaches(c, start, 1);
    s := StepReaches(c, s, ScanDone);
  }

  lemma OnlyWorkerStarts(c: Config, s: State) returns (r: State)
    requires IsHuge(c) && Reachable(c, s) && s == Init().(keeper := Between)
    ensures Reachable(c, r)
      && r == s.(keeper := Resting, workers := [Worker(Starting, false)], list := [0], numStarting := 1)
  {
    assert StartCount(c, 0, 0) == 1 by { HugeStarts(c); }
    r := StartSparesReaches(c, s, 1);
    r := StepReaches(c, r, StartOne);
    r := StepReaches(c, r, StartDone);
    r := StepReaches(c, r, Rest);
  }

  lemma OnlyWorkerFree(c: Config, s: State) returns (r: State)
    requires Reachable(c, s) && s.workers == [Worker(Starting, false)]
    ensures Reachable(c, r)
    ensures r == s.(workers := [Worker(Locking, false)], numFree := s.numFree + 1, numStarting := s.numStarting - 1)
  {
    r := StepReaches(c, s, Announce(0));
    r := StepReaches(c, r, SetFree(0));
  }

  /** With min_spare one below 2^32 the difference is cut to a positive int: the keeper kills its
      only worker, and its iterator leaves the empty list. */
  lemma HugeSpareEmptiesList(c: Config) returns (s: State)
    requires IsHuge(c)
    ensures Reachable(c, s) && s.keeper.Scanning?
    ensures s.list == [] && s.keeper.at > |s.list| && Tally(IsSpare, s.workers) == 0
  {
    s := EmptyPass(c);
    s := OnlyWorkerStarts(c, s);
    s := OnlyWorkerFree(c, s);
    assert KillCount(c, 1) == 2 by { HugeKills(c); }
    s := KillSparesReaches(c, s, 2);
    s := ScanKills(c, s, 0);
    NoSpare(s.workers);
  }

  lemma NoSpare(ws: seq<Worker>)
    requires ws == [Worker(Locking, true)]
    ensures Tally(IsSpare, ws) == 0
  {
    assert ws[1..] == [];
  }
}
