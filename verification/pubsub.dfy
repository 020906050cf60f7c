/** One channel of the publish/subscribe broker (src/modules/rtjs/pubsub.h) as a transition system.
    A publish holds the channel's mutex for the whole fan-out, but it reaches the sessions one at a
    time under their own mutexes, and a poll that already has its session needs only that one; so
    polls interleave inside a publish, and inside the cleanup. */
module PubSub {

  type Id = nat
  type Value = int
  type Time = int

  /** `delivered` and `since` are history: what the polls of this session have returned so far, and
      how many publications had begun when it subscribed. */
  datatype Session = Session(messages: seq<Value>, lastActivity: Time, timeout: Time,
                             delivered: seq<Value>, since: nat)

  predicate IsAlive(s: Session, now: Time) { s.lastActivity + s.timeout > now }

  /** Who holds the channel's mutex across steps, and how far it is. */
  datatype Holder =
    | Nobody
    | Publishing(value: Value, todo: set<Id>)
    | Cleaning(at: Time)

  /** `sessions` is the channel's map; an erased session lives on as long as a poll holds it.
      `handles` are the sessions that polls have looked up and not yet drained. */
  datatype State = State(sessions: map<Id, Session>, erased: map<Id, Session>, handles: multiset<Id>,
                         lastId: nat, holder: Holder, log: seq<Value>, now: Time)

  function Init(now: Time): State { State(map[], map[], multiset{}, 0, Nobody, [], now) }

  datatype Action =
    | Subscribe(timeout: Time)
    | PublishBegin(value: Value)
    | PublishTo(id: Id)
    | PublishEnd
    | GetSession(id: Id)
    | ResetActivity(id: Id)
    | Drain(id: Id)
    | CleanBegin(at: Time)  // the clock is read before the mutex is taken
    | Erase(id: Id)
    | CleanEnd
    | Tick(d: nat)

  predicate Enabled(s: State, a: Action)
  {
    match a
    case Subscribe(_) => s.holder == Nobody
    case PublishBegin(_) => s.holder == Nobody
    case PublishTo(id) => s.holder.Publishing? && id in s.holder.todo && id in s.sessions
    case PublishEnd => s.holder.Publishing? && s.holder.todo == {}
    case GetSession(id) => s.holder == Nobody && id in s.sessions
    case ResetActivity(id) => id in s.handles && Known(s, id)
    case Drain(id) => id in s.handles && Known(s, id)
    case CleanBegin(at) => s.holder == Nobody && at <= s.now
    case Erase(id) => s.holder.Cleaning? && id in s.sessions && !IsAlive(s.sessions[id], s.holder.at)
    case CleanEnd => s.holder.Cleaning? && forall id :: id in s.sessions ==> IsAlive(s.sessions[id], s.holder.at)
    case Tick(_) => true
  }

  predicate Known(s: State, id: Id) { id in s.sessions || id in s.erased }

  function Find(s: State, id: Id): Session
    requires Known(s, id)
  {
    if id in s.sessions then s.sessions[id] else s.erased[id]
  }

  function Put(s: State, id: Id, x: Session): State
    requires Known(s, id)
  {
    if id in s.sessions then s.(sessions := s.sessions[id := x]) else s.(erased := s.erased[id := x])
  }

  function Pushed(x: Session, v: Value): Session { x.(messages := x.messages + [v]) }

  function Drained(x: Session): Session { x.(messages := [], delivered := x.delivered + x.messages) }

  function Do(s: State, a: Action): State
    requires Enabled(s, a)
  {
    match a
    case Subscribe(timeout) =>
      var id := s.lastId + 1;
      s.(lastId := id, sessions := s.sessions[id := Session([], s.now, timeout, [], |s.log|)])
    case PublishBegin(v) => s.(holder := Publishing(v, s.sessions.Keys), log := s.log + [v])
    case PublishTo(id) =>
      s.(sessions := s.sessions[id := Pushed(s.sessions[id], s.holder.value)],
         holder := Publishing(s.holder.value, s.holder.todo - {id}))
    case PublishEnd => s.(holder := Nobody)
    case GetSession(id) => s.(handles := s.handles + multiset{id})
    case ResetActivity(id) => Put(s, id, Find(s, id).(lastActivity := s.now))
    case Drain(id) => Put(s, id, Drained(Find(s, id))).(handles := s.handles - multiset{id})
    case CleanBegin(at) => s.(holder := Cleaning(at))
    case Erase(id) => s.(sessions := s.sessions - {id}, erased := s.erased[id := s.sessions[id]])
    case CleanEnd => s.(holder := Nobody)
    case Tick(d) => s.(now := s.now + d)
  }

  predicate IsRun(s: State, actions: seq<Action>)
    decreases actions
  {
    actions == [] || (Enabled(s, actions[0]) && IsRun(Do(s, actions[0]), actions[1..]))
  }

  function After(s: State, actions: seq<Action>): State
    requires IsRun(s, actions)
    decreases actions
  {
    if actions == [] then s else After(Do(s, actions[0]), actions[1..])
  }

  // ---- delivery ----

  function Stream(x: Session): seq<Value> { x.delivered + x.messages }

  /** What a listed session must have received: the whole log from its subscription on, but for the
      message being fanned out when its turn has not come. */
  predicate Served(s: State, id: Id)
    requires id in s.sessions
  {
    var x := s.sessions[id];
    if s.holder.Publishing? && id in s.holder.todo
    then x.since < |s.log| && Stream(x) + [s.log[|s.log| - 1]] == s.log[x.since..]
    else x.since <= |s.log| && Stream(x) == s.log[x.since..]
  }

  predicate ServedOnce(s: State, id: Id)
    requires id in s.erased
  {
    var x := s.erased[id];
    x.since <= |s.log| && Stream(x) <= s.log[x.since..]
  }

  ghost predicate Delivery(s: State)
  {
    && (s.holder.Publishing? ==>
          s.holder.todo <= s.sessions.Keys && s.log != [] && s.log[|s.log| - 1] == s.holder.value)
    && (forall id :: id in s.sessions ==> Served(s, id))
    && (forall id :: id in s.erased ==> ServedOnce(s, id))
  }

  /** Ids are handed out once. */
  ghost predicate Ids(s: State)
  {
    && (forall id :: id in s.sessions ==> 0 < id <= s.lastId && id !in s.erased)
    && (forall id :: id in s.erased ==> 0 < id <= s.lastId)
    && (forall id :: id in s.handles ==> Known(s, id))
  }

  lemma StepKeepsIds(s: State, a: Action)
    requires Enabled(s, a) && Ids(s)
    ensures Ids(Do(s, a))
  {
  }

  /** A step that leaves every session's stream, the log and the holder's list alone. */
  predicate Quiet(a: Action)
  {
    a.GetSession? || a.ResetActivity? || a.Drain? || a.CleanBegin? || a.CleanEnd? || a.Tick? || a.PublishEnd?
  }

  lemma DrainKeepsStream(x: Session)
    ensures Stream(Drained(x)) == Stream(x) && Drained(x).since == x.since
  {
    assert x.delivered + x.messages + [] == x.delivered + x.messages;
  }

  lemma QuietStep(s: State, a: Action)
    requires Enabled(s, a) && Quiet(a) && Ids(s)
    ensures var n := Do(s, a);
      && n.log == s.log && n.sessions.Keys == s.sessions.Keys && n.erased.Keys == s.erased.Keys
      && (forall id :: id in s.sessions ==>
            Stream(n.sessions[id]) == Stream(s.sessions[id]) && n.sessions[id].since == s.sessions[id].since)
      && (forall id :: id in s.erased ==>
            Stream(n.erased[id]) == Stream(s.erased[id]) && n.erased[id].since == s.erased[id].since)
  {
    if a.Drain? { DrainKeepsStream(Find(s, a.id)); }
  }

  lemma QuietKeepsDelivery(s: State, a: Action)
    requires Enabled(s, a) && Quiet(a) && Ids(s) && Delivery(s)
    ensures Delivery(Do(s, a))
  {
    var n := Do(s, a);
    QuietStep(s, a);
    forall id | id in n.sessions ensures Served(n, id) { assert Served(s, id); }
    forall id | id in n.erased ensures ServedOnce(n, id) { assert ServedOnce(s, id); }
  }

  lemma BeginKeepsDelivery(s: State, v: Value)
    requires Enabled(s, PublishBegin(v)) && Delivery(s)
    ensures Delivery(Do(s, PublishBegin(v)))
  {
    var n := Do(s, PublishBegin(v));
    forall id | id in n.sessions ensures Served(n, id) {
      assert Served(s, id);
      assert n.log[n.sessions[id].since..] == s.log[s.sessions[id].since..] + [v];
    }
    forall id | id in n.erased ensures ServedOnce(n, id) {
      assert ServedOnce(s, id);
      assert n.log[n.erased[id].since..] == s.log[s.erased[id].since..] + [v];
    }
  }

  lemma ToKeepsDelivery(s: State, to: Id)
    requires Enabled(s, PublishTo(to)) && Delivery(s)
    ensures Delivery(Do(s, PublishTo(to)))
  {
    var n := Do(s, PublishTo(to));
    forall id | id in n.sessions ensures Served(n, id) {
      assert Served(s, id);
      if id == to {
        assert Stream(n.sessions[id]) == Stream(s.sessions[id]) + [s.holder.value];
      }
    }
    forall id | id in n.erased ensures ServedOnce(n, id) { assert ServedOnce(s, id); }
  }

  lemma SubscribeKeepsDelivery(s: State, timeout: Time)
    requires Enabled(s, Subscribe(timeout)) && Ids(s) && Delivery(s)
    ensures Delivery(Do(s, Subscribe(timeout)))
  {
    var n := Do(s, Subscribe(timeout));
    forall id | id in n.sessions ensures Served(n, id) {
      if id in s.sessions { assert Served(s, id); }
    }
    forall id | id in n.erased ensures ServedOnce(n, id) { assert ServedOnce(s, id); }
  }

  lemma EraseKeepsDelivery(s: State, gone: Id)
    requires Enabled(s, Erase(gone)) && Delivery(s)
    ensures Delivery(Do(s, Erase(gone)))
  {
    var n := Do(s, Erase(gone));
    forall id | id in n.sessions ensures Served(n, id) { assert Served(s, id); }
    forall id | id in n.erased ensures ServedOnce(n, id) {
      if id == gone { assert Served(s, id); } else { assert ServedOnce(s, id); }
    }
  }

  lemma StepKeepsDelivery(s: State, a: Action)
    requires Enabled(s, a) && Ids(s) && Delivery(s)
    ensures Delivery(Do(s, a))
  {
    match a
    case Subscribe(timeout) => SubscribeKeepsDelivery(s, timeout);
    case PublishBegin(v) => BeginKeepsDelivery(s, v);
    case PublishTo(id) => ToKeepsDelivery(s, id);
    case Erase(id) => EraseKeepsDelivery(s, id);
    case _ => QuietKeepsDelivery(s, a);
  }

  /** The cleanup works with a clock reading that may be old but is never ahead of the clock. */
  ghost predicate ClockOk(s: State)
  {
    && (s.holder.Cleaning? ==> s.holder.at <= s.now)
    && forall id :: id in s.sessions ==> s.sessions[id].lastActivity <= s.now
  }

  lemma StepKeepsClock(s: State, a: Action)
    requires Enabled(s, a) && ClockOk(s)
    ensures ClockOk(Do(s, a))
  {
  }

  lemma StepKeepsInv(s: State, a: Action)
    requires Enabled(s, a) && Inv(s)
    ensures Inv(Do(s, a))
  {
    StepKeepsIds(s, a);
    StepKeepsDelivery(s, a);
    StepKeepsClock(s, a);
  }

  // ---- every run ----

  ghost predicate Inv(s: State) { Ids(s) && Delivery(s) && ClockOk(s) }

  lemma {:induction false} RunsKeepInv(s: State, actions: seq<Action>)
    requires Inv(s) && IsRun(s, actions)
    ensures Inv(After(s, actions))
    decreases actions
  {
    if actions != [] {
      StepKeepsInv(s, actions[0]);
      RunsKeepInv(Do(s, actions[0]), actions[1..]);
    }
  }

  ghost predicate Reachable(s: State)
  {
    exists start, actions :: IsRun(Init(start), actions) && After(Init(start), actions) == s
  }

  lemma ReachableInv(s: State)
    requires Reachable(s)
    ensures Inv(s)
  {
    var start, actions :| IsRun(Init(start), actions) && After(Init(start), actions) == s;
    RunsKeepInv(Init(start), actions);
  }

  /** Nothing is lost, duplicated or reordered, however polls interleave with a publish: what a
      session's polls have returned, then what is queued for it, is the channel's log from its
      subscription on, short by the message being fanned out until its turn has come. */
  lemma BroadcastOrder(s: State, id: Id)
    requires Reachable(s) && id in s.sessions
    ensures var x := s.sessions[id];
      if s.holder.Publishing? && id in s.holder.todo
      then x.since < |s.log| && x.delivered + x.messages == s.log[x.since..|s.log| - 1]
      else x.since <= |s.log| && x.delivered + x.messages == s.log[x.since..]
  {
    ReachableInv(s);
    assert Served(s, id);
    var x := s.sessions[id];
    if s.holder.Publishing? && id in s.holder.todo {
      assert s.log[x.since..] == s.log[x.since..|s.log| - 1] + [s.log[|s.log| - 1]];
    }
  }

  /** All sessions see one order: between publishes, the stream of the later subscriber is the end
      of the stream of the earlier one. */
  lemma OneOrder(s: State, first: Id, second: Id)
    requires Reachable(s) && s.holder == Nobody && first in s.sessions && second in s.sessions
    requires s.sessions[first].since <= s.sessions[second].since
    ensures var a, b := Stream(s.sessions[first]), Stream(s.sessions[second]);
      |b| <= |a| && b == a[|a| - |b|..]
  {
    BroadcastOrder(s, first);
    BroadcastOrder(s, second);
  }

  /** A session that was erased under a poll keeps a prefix of what it would have got. */
  lemma ErasedKeepsOrder(s: State, id: Id)
    requires Reachable(s) && id in s.erased
    ensures var x := s.erased[id]; x.since <= |s.log| && x.delivered + x.messages <= s.log[x.since..]
  {
    ReachableInv(s);
    assert ServedOnce(s, id);
  }

  lemma StepGrowsStream(s: State, a: Action, id: Id)
    requires Ids(s) && Enabled(s, a) && Known(s, id)
    ensures Known(Do(s, a), id) && Stream(Find(s, id)) <= Stream(Find(Do(s, a), id))
  {
    if a.Drain? { DrainKeepsStream(Find(s, a.id)); }
  }

  /** Nothing that was queued for a session or handed to its polls is ever taken back, not even when
      the session is erased while a poll still holds it. */
  lemma {:induction false} StreamsOnlyGrow(s: State, actions: seq<Action>, id: Id)
    requires Inv(s) && IsRun(s, actions) && Known(s, id)
    ensures Known(After(s, actions), id) && Stream(Find(s, id)) <= Stream(Find(After(s, actions), id))
    decreases actions
  {
    if actions != [] {
      StepGrowsStream(s, actions[0], id);
      StepKeepsInv(s, actions[0]);
      StreamsOnlyGrow(Do(s, actions[0]), actions[1..], id);
    }
  }

  /** So a poll that drains an erased session gets all that had been queued for it. */
  lemma ErasedLosesNothing(s: State, rest: seq<Action>, id: Id)
    requires Reachable(s) && IsRun(s, rest) && id in s.sessions && id in After(s, rest).erased
    ensures var x, y := s.sessions[id], After(s, rest).erased[id];
      x.delivered + x.messages <= y.delivered + y.messages
  {
    ReachableInv(s);
    StreamsOnlyGrow(s, rest, id);
    RunsKeepInv(s, rest);
  }

  lemma IdsAreFresh(s: State, timeout: Time)
    requires Reachable(s) && Enabled(s, Subscribe(timeout))
    ensures var n := Do(s, Subscribe(timeout));
      n.lastId !in s.sessions && n.lastId !in s.erased && n.sessions.Keys == s.sessions.Keys + {n.lastId}
  {
    ReachableInv(s);
  }

  lemma {:induction false} NowGrows(s: State, actions: seq<Action>)
    requires IsRun(s, actions)
    ensures s.now <= After(s, actions).now
    decreases actions
  {
    if actions != [] { NowGrows(Do(s, actions[0]), actions[1..]); }
  }

  lemma StepKeepsPolled(s: State, a: Action, id: Id)
    requires Inv(s) && Enabled(s, a) && id in s.sessions && IsAlive(s.sessions[id], s.now)
    ensures id in Do(s, a).sessions
    ensures Do(s, a).sessions[id].timeout == s.sessions[id].timeout
    ensures s.sessions[id].lastActivity <= Do(s, a).sessions[id].lastActivity
  {
  }

  lemma {:induction false} PolledStays(s: State, actions: seq<Action>, id: Id)
    requires Inv(s) && IsRun(s, actions)
    requires id in s.sessions && IsAlive(s.sessions[id], After(s, actions).now)
    ensures id in After(s, actions).sessions
    decreases actions
  {
    if actions != [] {
      NowGrows(s, actions);
      StepKeepsPolled(s, actions[0], id);
      StepKeepsInv(s, actions[0]);
      PolledStays(Do(s, actions[0]), actions[1..], id);
    }
  }

  /** No run erases a session within its timeout after its last activity. */
  lemma ActiveSessionStays(s: State, actions: seq<Action>, id: Id)
    requires Reachable(s) && IsRun(s, actions) && id in s.sessions
    requires After(s, actions).now < s.sessions[id].lastActivity + s.sessions[id].timeout
    ensures id in After(s, actions).sessions
  {
    ReachableInv(s);
    PolledStays(s, actions, id);
  }

  lemma StepReaches(s: State, a: Action)
    requires Reachable(s) && Enabled(s, a)
    ensures Reachable(Do(s, a))
  {
    var start, actions :| IsRun(Init(start), actions) && After(Init(start), actions) == s;
    RunExtends(Init(start), actions, a);
  }

  lemma {:induction false} RunExtends(s: State, actions: seq<Action>, a: Action)
    requires IsRun(s, actions) && Enabled(After(s, actions), a)
    ensures IsRun(s, actions + [a]) && After(s, actions + [a]) == Do(After(s, actions), a)
    decreases actions
  {
    if actions == [] {
      assert actions + [a] == [a] && [a][1..] == [];
    } else {
      assert (actions + [a])[1..] == actions[1..] + [a];
      RunExtends(Do(s, actions[0]), actions[1..], a);
    }
  }

  /** A session that a poll reaches at some time is still listed in every later state before that time
      plus its timeout, whatever happens meanwhile. */
  lemma PolledSessionStays(s: State, id: Id, rest: seq<Action>)
    requires Reachable(s) && Enabled(s, ResetActivity(id)) && id in s.sessions
    requires IsRun(Do(s, ResetActivity(id)), rest)
    requires After(Do(s, ResetActivity(id)), rest).now < s.now + s.sessions[id].timeout
    ensures id in After(Do(s, ResetActivity(id)), rest).sessions
  {
    StepReaches(s, ResetActivity(id));
    ActiveSessionStays(Do(s, ResetActivity(id)), rest, id);
  }

  /** So is a new session, before the time of its subscription plus the timeout asked for. */
  lemma NewSessionStays(s: State, timeout: Time, rest: seq<Action>)
    requires Reachable(s) && Enabled(s, Subscribe(timeout)) && IsRun(Do(s, Subscribe(timeout)), rest)
    requires After(Do(s, Subscribe(timeout)), rest).now < s.now + timeout
    ensures s.lastId + 1 in After(Do(s, Subscribe(timeout)), rest).sessions
  {
    StepReaches(s, Subscribe(timeout));
    ActiveSessionStays(Do(s, Subscribe(timeout)), rest, s.lastId + 1);
  }

  /** The poll resets the activity before it asks for the session's mutex, so that draining, which may
      come later, buys no further time. */
  lemma DrainedSessionStays(s: State, id: Id, rest: seq<Action>)
    requires Reachable(s) && Enabled(s, Drain(id)) && id in s.sessions && IsRun(Do(s, Drain(id)), rest)
    requires After(Do(s, Drain(id)), rest).now < s.sessions[id].lastActivity + s.sessions[id].timeout
    ensures id in After(Do(s, Drain(id)), rest).sessions
  {
    StepReaches(s, Drain(id));
    ActiveSessionStays(Do(s, Drain(id)), rest, id);
  }

  lemma LatePoll() returns (s: State)
    ensures Reachable(s) && s == State(map[1 := Session([], 0, 10, [], 0)], map[], multiset{1}, 1, Nobody, [], 5)
  {
    var s0 := Init(0);
    assert IsRun(s0, []) && After(s0, []) == s0;
    StepReaches(s0, Subscribe(10));
    var s1 := Do(s0, Subscribe(10));
    StepReaches(s1, GetSession(1));
    var s2 := Do(s1, GetSession(1));
    StepReaches(s2, ResetActivity(1));
    var s3 := Do(s2, ResetActivity(1));
    StepReaches(s3, Tick(5));
    s := Do(s3, Tick(5));
  }

  /** An instance: with a timeout of 10, a session whose poll began at 0 and drained it at 5 is erased
      at 11, before 5 + 10. */
  lemma LateDrainBuysNoTime() returns (s: State, rest: seq<Action>)
    ensures Reachable(s) && Enabled(s, Drain(1)) && s.now == 5 && 1 in s.sessions && s.sessions[1].timeout == 10
    ensures IsRun(Do(s, Drain(1)), rest)
    ensures var n := After(Do(s, Drain(1)), rest); n.now < s.now + 10 && 1 !in n.sessions
  {
    s := LatePoll();
    rest := [Tick(6), CleanBegin(11), Erase(1)];
    var d := Do(s, Drain(1));
    RunExtends(d, [], Tick(6));
    RunExtends(d, [Tick(6)], CleanBegin(11));
    RunExtends(d, [Tick(6), CleanBegin(11)], Erase(1));
    assert [] + [Tick(6)] == [Tick(6)] && [Tick(6)] + [CleanBegin(11)] == [Tick(6), CleanBegin(11)];
    assert [Tick(6), CleanBegin(11)] + [Erase(1)] == rest;
  }

  /** While the cleanup runs, sessions only go, and those that are still alive at the time it read stay. */
  lemma StepOfCleanup(s: State, a: Action, id: Id)
    requires Inv(s) && s.holder.Cleaning? && Enabled(s, a) && a != CleanEnd
    ensures var n := Do(s, a);
      && n.holder == s.holder
      && (id in n.sessions ==>
            && id in s.sessions && n.sessions[id].timeout == s.sessions[id].timeout
            && (a != ResetActivity(id) ==> n.sessions[id].lastActivity == s.sessions[id].lastActivity))
      && (id in s.sessions && IsAlive(s.sessions[id], s.holder.at) ==>
            id in n.sessions && IsAlive(n.sessions[id], s.holder.at))
  {
  }

  lemma {:induction false} DuringCleanup(s: State, during: seq<Action>, id: Id)
    requires Inv(s) && s.holder.Cleaning? && IsRun(s, during) && CleanEnd !in during
    ensures var n := After(s, during);
      && n.holder == s.holder
      && (id in n.sessions ==>
            && id in s.sessions && n.sessions[id].timeout == s.sessions[id].timeout
            && (ResetActivity(id) !in during ==> n.sessions[id].lastActivity == s.sessions[id].lastActivity))
      && (id in s.sessions && IsAlive(s.sessions[id], s.holder.at) ==> id in n.sessions)
    decreases during
  {
    if during != [] {
      StepOfCleanup(s, during[0], id);
      StepKeepsInv(s, during[0]);
      DuringCleanup(Do(s, during[0]), during[1..], id);
    }
  }

  /** A cleanup that read the time `at` keeps, whatever the polls do meanwhile, every session whose
      timeout had not run out at that time; it leaves none of which that is so at its end; and one that
      had run out when it began is left only if a poll reset it meanwhile. */
  lemma CleanupIsExact(s: State, at: Time, during: seq<Action>, id: Id)
    requires Reachable(s) && Enabled(s, CleanBegin(at)) && IsRun(Do(s, CleanBegin(at)), during) && CleanEnd !in during
    requires Enabled(After(Do(s, CleanBegin(at)), during), CleanEnd) && id in s.sessions
    ensures var x, n := s.sessions[id], Do(After(Do(s, CleanBegin(at)), during), CleanEnd);
      && (x.lastActivity + x.timeout > at ==> id in n.sessions)
      && (id in n.sessions ==> n.sessions[id].lastActivity + n.sessions[id].timeout > at)
      && (id in n.sessions && x.lastActivity + x.timeout <= at ==> ResetActivity(id) in during)
  {
    ReachableInv(s);
    StepKeepsInv(s, CleanBegin(at));
    DuringCleanup(Do(s, CleanBegin(at)), during, id);
  }
}
