/** For which configurations the keeper never kills below min_spare: exactly, for every min_spare
    and every max_workers. */
module PoolBound {
  import opened Pool
  import opened PoolSafety
  import opened PoolKeeper

  const INTS := 0x1_0000_0000

  /** What the cast to int leaves of min_spare. */
  function Remainder(c: Config): nat { c.minSpare % INTS }

  /** The keeper computes with the remainder of min_spare modulo 2^32. */
  lemma CastKeepsRemainder(c: Config, spare: int)
    ensures KillCount(c, spare) == Int32(spare - Remainder(c))
    ensures Int32(SizeT(c.minSpare - spare)) == Int32(Remainder(c) - spare)
  {
    Int32OfSizeT(spare - c.minSpare);
    Int32OfSizeT(c.minSpare - spare);
    var q := c.minSpare / INTS;
    assert c.minSpare == q * INTS + Remainder(c);
    Shift(spare - Remainder(c) + 0x8000_0000, -q);
    Shift(Remainder(c) - spare + 0x8000_0000, q);
  }

  /** Up to 2^31 the keeper is sound. Above that it is only when it never kills at all, because no
      counter can get past the remainder: there are no workers, no int is that large, or the list
      cannot hold that many. */
  predicate Sound(c: Config)
  {
    || c.minSpare <= 0x8000_0000
    || Remainder(c) == 0
    || (Remainder(c) <= 0x8000_0000 && (Remainder(c) >= 0x7FFF_FFFF || c.maxWorkers <= Remainder(c)))
  }

  // ---- counting the live ones ----

  ghost predicate Live(s: State) { |s.list| == Tally(IsLive, s.workers) }

  lemma StepKeepsLive(c: Config, s: State, a: Action)
    requires Enabled(s, a) && Listed(s) && Live(s)
    ensures Live(Do(c, s, a))
  {
    TallyStep(c, s, a, IsLive);
  }

  lemma {:induction false} SpareAreLive(ws: seq<Worker>)
    ensures Tally(IsSpare, ws) <= Tally(IsLive, ws)
  {
    if ws != [] { SpareAreLive(ws[1..]); }
  }

  lemma {:induction false} TallyIsBounded(k: Class, ws: seq<Worker>)
    ensures Tally(k, ws) <= |ws|
  {
    if ws != [] { TallyIsBounded(k, ws[1..]); }
  }

  // ---- above 2^31, sound: never kills ----

  ghost predicate Idle(c: Config, s: State)
  {
    && !s.keeper.Scanning?
    && (Remainder(c) == 0 ==> s.workers == [] && s.list == [] && (s.keeper.Adding? ==> s.keeper.toStart == 0))
  }

  lemma KillsNone(c: Config, s: State)
    requires Sound(c) && c.minSpare > 0x8000_0000
    requires Enabled(s, KillSpares) && Counters(s) && Collected(s) && Live(s) && Bounded(c, s) && Idle(c, s)
    ensures KillCount(c, s.numFree + s.numStarting) <= 0
  {
    var spare := s.numFree + s.numStarting;
    SpareIsFreeOrStarting(s.workers);
    SpareAreLive(s.workers);
    CastKeepsRemainder(c, spare);
    Int32IsExact(spare - Remainder(c));
  }

  lemma StepKeepsIdle(c: Config, s: State, a: Action)
    requires Sound(c) && c.minSpare > 0x8000_0000
    requires Enabled(s, a) && Counters(s) && Collected(s) && Live(s) && Bounded(c, s) && Idle(c, s)
    ensures Idle(c, Do(c, s, a))
  {
    if a.KillSpares? {
      KillsNone(c, s);
    } else if a.StartSpares? && Remainder(c) == 0 {
      StartsNone(c);
    }
  }

  lemma StartsNone(c: Config)
    requires Remainder(c) == 0
    ensures StartCount(c, 0, 0) == 0
  {
    CastKeepsRemainder(c, 0);
  }

  lemma {:induction false} RunsKeepIdle(c: Config, s: State, actions: seq<Action>)
    requires Sound(c) && c.minSpare > 0x8000_0000
    requires Inv(c, s) && Live(s) && Idle(c, s) && IsRun(c, s, actions)
    ensures Idle(c, After(c, s, actions))
    decreases actions
  {
    if actions != [] {
      StepKeepsInv(c, s, actions[0]);
      StepKeepsLive(c, s, actions[0]);
      StepKeepsIdle(c, s, actions[0]);
      RunsKeepIdle(c, Do(c, s, actions[0]), actions[1..]);
    }
  }

  lemma SoundNeverScans(c: Config, s: State)
    requires Sound(c) && c.minSpare > 0x8000_0000 && Reachable(c, s)
    ensures !s.keeper.Scanning?
  {
    InitInv(c);
    var actions :| IsRun(c, Init(), actions) && After(c, Init(), actions) == s;
    RunsKeepIdle(c, Init(), actions);
  }

  // ---- unsound: a run that kills too many ----

  /** With a remainder above 2^31 the first pass over the empty pool wants to kill. */
  lemma FirstPassKills(c: Config) returns (s: State)
    requires Remainder(c) > 0x8000_0000
    ensures Reachable(c, s) && s.keeper.Scanning? && s.list == []
  {
    var start := Init();
    assert IsRun(c, start, []) && After(c, start, []) == start;
    CastKeepsRemainder(c, 0);
    s := KillSparesReaches(c, start, INTS - Remainder(c));
  }

  function Fresh(n: nat): (ws: seq<Worker>)
    ensures |ws| == n && forall i :: 0 <= i < n ==> ws[i] == Worker(Starting, false)
  {
    seq(n, _ => Worker(Starting, false))
  }

  /** A pass that starts k workers, up to its end. */
  lemma {:induction false} StartsMany(c: Config, s: State, k: nat) returns (r: State)
    requires Reachable(c, s) && s.keeper == Adding(k) && s.mutex == ByKeeper && s.collect == []
    ensures Reachable(c, r) && r.keeper == Resting && r.mutex == Free && r.collect == []
    ensures r.workers == s.workers + Fresh(k) && |r.list| == |s.list| + k
    ensures r.numFree == s.numFree && r.numStarting == s.numStarting + k
    ensures r.tasks == s.tasks && r.taken == s.taken
    decreases k
  {
    if k == 0 {
      r := StepReaches(c, s, StartDone);
      r := StepReaches(c, r, Rest);
      assert s.workers + Fresh(0) == s.workers;
    } else {
      var n := StepReaches(c, s, StartOne);
      r := StartsMany(c, n, k - 1);
      assert [Worker(Starting, false)] + Fresh(k - 1) == Fresh(k);
      assert n.workers + Fresh(k - 1) == s.workers + ([Worker(Starting, false)] + Fresh(k - 1));
    }
  }

  /** What a pool with room for one worker more than the remainder computes on its way. */
  lemma NearCounts(c: Config)
    requires 0 < Remainder(c) < 0x7FFF_FFFF && Remainder(c) < c.maxWorkers
    ensures var m: int := Remainder(c);
      && KillCount(c, 0) == -m && KillCount(c, m - 1) == -1 && KillCount(c, m + 1) == 1
      && StartCount(c, 0, 0) == m && StartCount(c, m - 1, m) == 1
  {
    var m := Remainder(c);
    NearKills(c);
    NearStarts(c);
  }

  lemma NearKills(c: Config)
    requires 0 < Remainder(c) < 0x7FFF_FFFF
    ensures var m: int := Remainder(c);
      KillCount(c, 0) == -m && KillCount(c, m - 1) == -1 && KillCount(c, m + 1) == 1
  {
    var m: int := Remainder(c);
    assert KillCount(c, 0) == -m by { CastKeepsRemainder(c, 0); Int32IsExact(-m); }
    assert KillCount(c, m - 1) == -1 by { CastKeepsRemainder(c, m - 1); Int32IsExact(-1); }
    assert KillCount(c, m + 1) == 1 by { CastKeepsRemainder(c, m + 1); Int32IsExact(1); }
  }

  lemma NearStarts(c: Config)
    requires 0 < Remainder(c) < 0x7FFF_FFFF && Remainder(c) < c.maxWorkers
    ensures var m: int := Remainder(c); StartCount(c, 0, 0) == m && StartCount(c, m - 1, m) == 1
  {
    var m: int := Remainder(c);
    assert StartCount(c, 0, 0) == m by {
      CastKeepsRemainder(c, 0);
      Int32IsExact(m);
      assert SizeT(m) == m && SizeT(0 + SizeT(m)) == m;
    }
    assert StartCount(c, m - 1, m) == 1 by {
      CastKeepsRemainder(c, m - 1);
      Int32IsExact(1);
      assert SizeT(1) == 1 && SizeT(m + SizeT(1)) == m + 1;
    }
  }

  ghost predicate Near(c: Config)
  {
    0 < Remainder(c) < 0x7FFF_FFFF && Remainder(c) < c.maxWorkers
  }

  /** The first pass kills nothing. */
  lemma FirstPassRests(c: Config) returns (s: State)
    requires Near(c)
    ensures Reachable(c, s) && s.keeper == Between && s.mutex == Free && s.collect == [] && s.tasks == []
      && s.taken == []
    ensures s.workers == [] && s.list == [] && s.numFree == 0 && s.numStarting == 0
  {
    var start := Init();
    assert IsRun(c, start, []) && After(c, start, []) == start;
    var toKill: int := -(Remainder(c) as int);
    assert KillCount(c, 0) == toKill by { NearCounts(c); }
    s := KillSparesReaches(c, start, toKill);
  }

  lemma AllStart(c: Config) returns (s: State)
    requires Near(c)
    ensures Reachable(c, s) && s.keeper == Resting && s.mutex == Free && s.collect == [] && s.tasks == []
      && s.taken == []
    ensures s.workers == Fresh(Remainder(c)) && |s.list| == Remainder(c)
    ensures s.numFree == 0 && s.numStarting == Remainder(c)
  {
    var m := Remainder(c);
    s := FirstPassRests(c);
    assert StartCount(c, 0, 0) == m by { NearCounts(c); }
    s := StartSparesReaches(c, s, m);
    s := StartsMany(c, s, m);
    assert [] + Fresh(m) == Fresh(m);
  }

  /** The first worker takes a task. */
  lemma FirstRuns(c: Config, s: State) returns (r: State)
    requires Reachable(c, s) && s.keeper == Resting && s.mutex == Free && s.collect == [] && s.tasks == []
      && s.taken == []
    requires |s.workers| > 0 && s.workers == Fresh(|s.workers|)
    ensures Reachable(c, r) && r.keeper == Resting && r.mutex == Free && r.collect == [] && r.tasks == []
    ensures r.workers == s.workers[0 := Worker(Running(0), false)] && r.list == s.list
    ensures r.numFree == s.numFree && r.numStarting == s.numStarting - 1
  {
    assert NoneWaits(s.workers);
    r := StepReaches(c, s, AddWork(0, 0));
    r := StepReaches(c, r, Announce(0));
    r := StepReaches(c, r, SetFree(0));
    r := StepReaches(c, r, Lock(0));
    r := StepReaches(c, r, Check(0));
  }

  /** The pass that follows starts one more worker. */
  lemma OneMore(c: Config, s: State) returns (r: State)
    requires Near(c) && Reachable(c, s) && s.keeper == Resting && s.mutex == Free && s.collect == []
    requires s.numFree == 0 && s.numStarting == Remainder(c) - 1 && |s.list| == Remainder(c)
    ensures Reachable(c, r) && r.keeper == Resting && r.mutex == Free
    ensures r.workers == s.workers + Fresh(1) && |r.list| == Remainder(c) + 1
    ensures r.numFree == 0 && r.numStarting == Remainder(c)
  {
    NearCounts(c);
    r := KillSparesReaches(c, s, -1);
    r := StartSparesReaches(c, r, 1);
    r := StartsMany(c, r, 1);
  }

  /** Once its task is over there is one spare worker more than the remainder, and the next pass
      kills it. */
  lemma LaterPassKills(c: Config) returns (s: State)
    requires Near(c)
    ensures Reachable(c, s) && s.keeper.Scanning? && |s.workers| == Remainder(c) + 1
  {
    s := AllStart(c);
    s := FirstRuns(c, s);
    s := OneMore(c, s);
    assert s.workers[0].pc.Running?;
    s := StepReaches(c, s, Finish(0));
    s := StepReaches(c, s, Announce(0));
    assert KillCount(c, Remainder(c) + 1) == 1 by { NearCounts(c); }
    s := KillSparesReaches(c, s, 1);
  }

  // ---- the exact condition ----

  lemma UnsoundOverkills(c: Config) returns (s: State)
    requires !Sound(c)
    ensures Reachable(c, s) && s.keeper.Scanning? && (Tally(IsSpare, s.workers) < c.minSpare || s.list == [])
  {
    if Remainder(c) > 0x8000_0000 {
      s := FirstPassKills(c);
    } else {
      s := LaterPassKills(c);
      TallyIsBounded(IsSpare, s.workers);
      assert Remainder(c) != c.minSpare;
    }
  }

  /** The keeper never kills below min_spare, and never empties the list under its iterator, in any
      reachable state, if and only if the configuration is sound. */
  lemma NeverOverkillsExactly(c: Config)
    ensures (forall s :: Reachable(c, s) && s.keeper.Scanning? ==>
               Tally(IsSpare, s.workers) >= c.minSpare && s.list != [] && s.keeper.at <= |s.list|)
            <==> Sound(c)
  {
    if Sound(c) {
      forall s | Reachable(c, s) && s.keeper.Scanning?
        ensures Tally(IsSpare, s.workers) >= c.minSpare && s.list != [] && s.keeper.at <= |s.list|
      {
        if c.minSpare <= 0x8000_0000 { NeverOverkills(c, s); } else { SoundNeverScans(c, s); }
      }
    } else {
      var s := UnsoundOverkills(c);
    }
  }

  /** Below 2^32 the exact bound on min_spare is 2^31, whatever max_workers is. */
  lemma BoundBelowIntRange(c: Config)
    requires c.minSpare < INTS
    ensures (forall s :: Reachable(c, s) && s.keeper.Scanning? ==>
               Tally(IsSpare, s.workers) >= c.minSpare && s.list != [] && s.keeper.at <= |s.list|)
            <==> c.minSpare <= 0x8000_0000
  {
    NeverOverkillsExactly(c);
  }
}
