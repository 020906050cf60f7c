/** The thread pool (include/gcm/thread/pool.h) before `stop()` is called, as a transition system:
    one step for every piece of code that other threads can see between. */
module Pool {

  type Task = nat

  /** Where a worker thread is. */
  datatype Pc =
    | Starting             // created; its state is Starting and it is counted so
    | Announced            // counted as free; its state does not say so yet
    | Locking              // its state says Free; it asks for the mutex
    | Checking             // inside the mutex, about to look at `quit` and at the queue
    | Waiting              // in the wait set of the condition variable
    | Woken                // out of the wait set, asking for the mutex again
    | Running(ticket: nat) // runs the task it was the ticket-th to take
    | Finished             // the task is over and no longer counted as busy
    | Leaving              // has seen `quit` and given up the mutex
    | Gone                 // its thread function has returned

  datatype Worker = Worker(pc: Pc, quit: bool)

  /** What the keeper reads as WorkerState::Free. */
  predicate LooksFree(w: Worker)
  {
    w.pc.Locking? || w.pc.Checking? || w.pc.Waiting? || w.pc.Woken? || w.pc.Leaving? || w.pc.Gone?
  }

  datatype Mutex = Free | ByWorker(i: nat) | ByKeeper

  datatype Keeper =
    | Resting                      // before kill_spares
    | Scanning(toKill: nat, at: nat) // in the loop of kill_spares
    | Between                      // between kill_spares and start_spares
    | Adding(toStart: nat)         // in the loop of start_spares
    | Collecting                   // joins the threads in to_collect

  datatype Config = Config(minSpare: nat, maxWorkers: nat)

  datatype Taken = Taken(worker: nat, task: Task)

  /** `workers` holds every worker ever started; `list` and `collect` are the pool's two lists, of
      indices into it. The last three fields are the history: the tasks added, the tasks taken
      (the k-th by ticket k), and the tickets whose task is over. */
  datatype State = State(
    tasks: seq<Task>, workers: seq<Worker>, list: seq<nat>, collect: seq<nat>, mutex: Mutex,
    numFree: int, numBusy: int, numStarting: int, keeper: Keeper,
    added: seq<Task>, taken: seq<Taken>, over: seq<nat>)

  function Init(): State
  {
    State([], [], [], [], Free, 0, 0, 0, Resting, [], [], [])
  }

  datatype Action =
    | Announce(i: nat)
    | SetFree(i: nat)
    | Lock(i: nat)
    | Check(i: nat)
    | Wake(i: nat)              // spurious
    | Finish(i: nat)
    | Leave(i: nat)
    | AddWork(t: Task, wake: nat) // `wake`: the waiting worker that notify_one picks, if there is one
    | KillSpares
    | Scan
    | ScanDone
    | StartSpares
    | StartOne
    | StartDone
    | Join
    | Rest

  // ---- the keeper's arithmetic, with size_t of 64 and int of 32 bits ----

  function SizeT(x: int): nat { x % 0x1_0000_0000_0000_0000 }

  function Int32(x: int): int { (x + 0x8000_0000) % 0x1_0000_0000 - 0x8000_0000 }

  /** `int to_kill = (num_free + num_starting) - min_spare`. */
  function KillCount(c: Config, spare: int): int { Int32(SizeT(spare - c.minSpare)) }

  /** `int to_start = min_spare - num_free - num_starting`, cut to the room left in the list. */
  function StartCount(c: Config, spare: int, size: nat): int
  {
    var toStart := Int32(SizeT(c.minSpare - spare));
    if SizeT(size + SizeT(toStart)) > c.maxWorkers then Int32(SizeT(c.maxWorkers - size)) else toStart
  }

  // ---- steps ----

  predicate At(s: State, i: nat, pc: Pc)
  {
    i < |s.workers| && s.workers[i].pc == pc
  }

  function Move(s: State, i: nat, pc: Pc): State
    requires i < |s.workers|
  {
    s.(workers := s.workers[i := s.workers[i].(pc := pc)])
  }

  predicate NoneWaits(ws: seq<Worker>)
  {
    forall i :: 0 <= i < |ws| ==> ws[i].pc != Waiting
  }

  function WakeAll(ws: seq<Worker>): (r: seq<Worker>)
    ensures |r| == |ws|
    ensures forall i :: 0 <= i < |ws| ==> r[i] == if ws[i].pc == Waiting then ws[i].(pc := Woken) else ws[i]
  {
    seq(|ws|, i requires 0 <= i < |ws| => if ws[i].pc == Waiting then ws[i].(pc := Woken) else ws[i])
  }

  /** The counters are ints and the list fits in memory: a machine that could break this is not
      considered. */
  predicate MachineHolds(s: State)
  {
    -0x8000_0000 <= s.numFree + s.numStarting < 0x8000_0000 && |s.list| < 0x8000_0000_0000_0000
  }

  predicate Enabled(s: State, a: Action)
  {
    match a
    case Announce(i) => (At(s, i, Starting) || At(s, i, Finished))
    case SetFree(i) => At(s, i, Announced)
    case Lock(i) => (At(s, i, Locking) || At(s, i, Woken)) && s.mutex == Free
    case Check(i) => At(s, i, Checking)
    case Wake(i) => At(s, i, Waiting)
    case Finish(i) => i < |s.workers| && s.workers[i].pc.Running?
    case Leave(i) => At(s, i, Leaving)
    case AddWork(_, w) => s.mutex == Free && (NoneWaits(s.workers) || At(s, w, Waiting))
    case KillSpares => s.keeper == Resting && s.mutex == Free && MachineHolds(s)
    case Scan => s.keeper.Scanning? && s.keeper.toKill > 0 && s.keeper.at < |s.list|
    case ScanDone => s.keeper.Scanning? && (s.keeper.toKill == 0 || s.keeper.at >= |s.list|)
    case StartSpares => s.keeper == Between && s.mutex == Free && MachineHolds(s)
    case StartOne => s.keeper.Adding? && s.keeper.toStart > 0
    case StartDone => s.keeper.Adding? && s.keeper.toStart == 0
    case Join => s.keeper == Collecting && s.collect != [] && At(s, s.collect[|s.collect| - 1], Gone)
    case Rest => s.keeper == Collecting && s.collect == []
  }

  function Do(c: Config, s: State, a: Action): State
    requires Enabled(s, a)
  {
    match a
    case Announce(i) =>
      var n := Move(s, i, Announced);
      if s.workers[i].pc == Starting then n.(numFree := s.numFree + 1, numStarting := s.numStarting - 1)
      else n.(numFree := s.numFree + 1)
    case SetFree(i) => Move(s, i, Locking)
    case Lock(i) => Move(s, i, Checking).(mutex := ByWorker(i))
    case Check(i) =>
      if s.workers[i].quit then Move(s, i, Leaving).(mutex := Free)
      else if s.tasks != [] then
        Move(s, i, Running(|s.taken|)).(mutex := Free, numFree := s.numFree - 1, numBusy := s.numBusy + 1,
                                        tasks := s.tasks[1..], taken := s.taken + [Taken(i, s.tasks[0])])
      else Move(s, i, Waiting).(mutex := Free)
    case Wake(i) => Move(s, i, Woken)
    case Finish(i) =>
      Move(s, i, Finished).(numBusy := s.numBusy - 1, over := s.over + [s.workers[i].pc.ticket])
    case Leave(i) => Move(s, i, Gone).(numFree := s.numFree - 1)
    case AddWork(t, w) =>
      var n := if NoneWaits(s.workers) then s else Move(s, w, Woken);
      n.(tasks := s.tasks + [t], added := s.added + [t])
    case KillSpares =>
      var toKill := KillCount(c, s.numFree + s.numStarting);
      if toKill > 0 then s.(keeper := Scanning(toKill, 0), mutex := ByKeeper) else s.(keeper := Between)
    case Scan =>
      var i := s.list[s.keeper.at];
      if i < |s.workers| && LooksFree(s.workers[i]) then
        // erase, restart at the first element, and let the loop step past it
        s.(workers := s.workers[i := s.workers[i].(quit := true)], collect := s.collect + [i],
           list := s.list[..s.keeper.at] + s.list[s.keeper.at + 1..], keeper := Scanning(s.keeper.toKill - 1, 1))
      else s.(keeper := Scanning(s.keeper.toKill, s.keeper.at + 1))
    case ScanDone => s.(workers := WakeAll(s.workers), keeper := Between, mutex := Free)
    case StartSpares =>
      var toStart := StartCount(c, s.numFree + s.numStarting, |s.list|);
      s.(keeper := Adding(if toStart > 0 then toStart else 0), mutex := ByKeeper)
    case StartOne =>
      s.(numStarting := s.numStarting + 1, workers := s.workers + [Worker(Starting, false)],
         list := s.list + [|s.workers|], keeper := Adding(s.keeper.toStart - 1))
    case StartDone => s.(keeper := Collecting, mutex := Free)
    case Join => s.(collect := s.collect[..|s.collect| - 1])
    case Rest => s.(keeper := Resting)
  }

  // ---- runs ----

  predicate IsRun(c: Config, s: State, actions: seq<Action>)
    decreases actions
  {
    actions == [] || (Enabled(s, actions[0]) && IsRun(c, Do(c, s, actions[0]), actions[1..]))
  }

  function After(c: Config, s: State, actions: seq<Action>): State
    requires IsRun(c, s, actions)
    decreases actions
  {
    if actions == [] then s else After(c, Do(c, s, actions[0]), actions[1..])
  }

  // ---- counting workers ----

  datatype Class = IsFree | IsBusy | IsStarting | IsSpare | IsLive | WillCheck

  /** The phases in which a worker is counted in num_free, num_busy, num_starting; a live one was
      not told to quit; a spare one is live and free or starting; the last class is live and will
      look at the queue without another notification. */
  predicate In(c: Class, w: Worker)
  {
    match c
    case IsFree => CountedFree(w.pc)
    case IsBusy => w.pc.Running?
    case IsStarting => w.pc == Starting
    case IsLive => !w.quit
    case IsSpare => !w.quit && (CountedFree(w.pc) || w.pc == Starting)
    case WillCheck => !w.quit && (w.pc == Locking || w.pc == Checking || w.pc == Woken)
  }

  predicate CountedFree(pc: Pc)
  {
    pc == Announced || pc == Locking || pc == Checking || pc == Waiting || pc == Woken || pc == Leaving
  }

  function One(b: bool): nat { if b then 1 else 0 }

  function Tally(c: Class, ws: seq<Worker>): nat
  {
    if ws == [] then 0 else One(In(c, ws[0])) + Tally(c, ws[1..])
  }

  lemma {:induction false} TallyUpdate(c: Class, ws: seq<Worker>, i: nat, w: Worker)
    requires i < |ws|
    ensures Tally(c, ws[i := w]) == Tally(c, ws) - One(In(c, ws[i])) + One(In(c, w))
  {
    if i == 0 {
      assert ws[i := w][1..] == ws[1..];
    } else {
      assert ws[i := w][1..] == ws[1..][i - 1 := w];
      TallyUpdate(c, ws[1..], i - 1, w);
    }
  }

  lemma {:induction false} TallyAppend(c: Class, ws: seq<Worker>, w: Worker)
    ensures Tally(c, ws + [w]) == Tally(c, ws) + One(In(c, w))
  {
    if ws == [] {
      assert ws + [w] == [w] && [w][1..] == [];
    } else {
      assert (ws + [w])[1..] == ws[1..] + [w];
      TallyAppend(c, ws[1..], w);
    }
  }

  lemma {:induction false} TallyWakeAll(c: Class, ws: seq<Worker>)
    requires c != WillCheck
    ensures Tally(c, WakeAll(ws)) == Tally(c, ws)
  {
    if ws != [] {
      assert WakeAll(ws)[1..] == WakeAll(ws[1..]);
      TallyWakeAll(c, ws[1..]);
    }
  }

  lemma {:induction false} TallyFinds(c: Class, ws: seq<Worker>)
    ensures Tally(c, ws) > 0 ==> exists i :: 0 <= i < |ws| && In(c, ws[i])
  {
    if ws != [] && Tally(c, ws) > 0 && !In(c, ws[0]) {
      TallyFinds(c, ws[1..]);
      var i :| 0 <= i < |ws[1..]| && In(c, ws[1..][i]);
      assert In(c, ws[i + 1]);
    }
  }

  lemma {:induction false} SpareIsFreeOrStarting(ws: seq<Worker>)
    requires forall i :: 0 <= i < |ws| && ws[i].quit ==> ws[i].pc == Gone
    ensures Tally(IsSpare, ws) == Tally(IsFree, ws) + Tally(IsStarting, ws)
  {
    if ws != [] {
      assert forall i :: 0 <= i < |ws[1..]| ==> ws[1..][i] == ws[i + 1];
      SpareIsFreeOrStarting(ws[1..]);
    }
  }
}
