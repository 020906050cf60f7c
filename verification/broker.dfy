/** The broker's objects (src/modules/rtjs/pubsub.h): a channel with its map of sessions, and the
    map of channels with its cleaner. Each operation is taken as a whole, with the clock reading it
    makes as a parameter; PubSub has the steps that other threads can see. */
module Broker {
  import opened PubSub

  const DEFAULT_TIMEOUT: Time := 60

  type Sessions = map<Id, Session>

  function Fanned(m: Sessions, v: Value): Sessions
  {
    map id | id in m :: Pushed(m[id], v)
  }

  function Alive(m: Sessions, now: Time): Sessions
  {
    map id | id in m && IsAlive(m[id], now) :: m[id]
  }

  /** The session's timeout has not run out. */
  predicate Lives(m: Sessions, id: Id, now: Time)
    requires id in m
  {
    m[id].lastActivity + m[id].timeout > now
  }

  ghost predicate AnyLives(m: Sessions, now: Time)
  {
    exists id :: id in m && Lives(m, id, now)
  }

  /** Exactly the sessions of `before` that live, as they were. */
  ghost predicate LivingOf(m: Sessions, before: Sessions, now: Time)
  {
    && (forall id :: id in m <==> id in before && Lives(before, id, now))
    && (forall id :: id in m ==> m[id] == before[id])
  }

  datatype Polled = Messages(values: seq<Value>) | SessionNotFound

  class Channel {
    var sessions: Sessions
    var lastId: nat
    var lastActivity: Time
    var log: seq<Value> // history: what was published so far

    /** Ids in use are those already given out, and every session has been served its part of the
        log. */
    ghost predicate Valid()
      reads this
    {
      AllOk(sessions, log, lastId)
    }

    constructor ()
      ensures Valid() && sessions == map[] && lastId == 0 && log == []
    {
      sessions, lastId, lastActivity, log := map[], 0, 0, [];
    }

    method Publish(value: Value, now: Time)
      requires Valid()
      modifies this
      ensures Valid()
      ensures sessions == Fanned(old(sessions), value) && log == old(log) + [value]
      ensures lastId == old(lastId) && lastActivity == now
    {
      ghost var before := sessions;
      FanKeepsOk(sessions, log, lastId, value);
      lastActivity := now;
      log := log + [value];
      var todo := sessions.Keys;
      while todo != {}
        invariant todo <= sessions.Keys && sessions.Keys == before.Keys
        invariant forall id :: id in before ==>
          sessions[id] == if id in todo then before[id] else Pushed(before[id], value)
        invariant lastId == old(lastId) && lastActivity == now && log == old(log) + [value]
        decreases |todo|
      {
        var id :| id in todo;
        sessions := sessions[id := Pushed(sessions[id], value)];
        todo := todo - {id};
      }
      assert sessions == Fanned(before, value);
    }

    method Subscribe(timeout: Time, now: Time) returns (id: Id)
      requires Valid()
      modifies this
      ensures Valid()
      ensures id !in old(sessions) && id > old(lastId) && lastId == id
      ensures sessions == old(sessions)[id := Session([], now, timeout, [], |log|)]
      ensures log == old(log) && lastActivity == now
    {
      lastActivity := now;
      lastId := lastId + 1;
      id := lastId;
      sessions := sessions[id := Session([], now, timeout, [], |log|)];
    }

    method Poll(id: Id, now: Time) returns (r: Polled)
      requires Valid()
      modifies this
      ensures Valid() && log == old(log) && lastId == old(lastId) && lastActivity == now
      ensures id !in old(sessions) ==> r == SessionNotFound && sessions == old(sessions)
      ensures id in old(sessions) ==>
        && r == Messages(old(sessions[id].messages))
        && sessions == old(sessions)[id := Drained(old(sessions)[id]).(lastActivity := now)]
    {
      lastActivity := now;
      if id in sessions {
        var s := sessions[id];
        DrainKeepsStream(s);
        r := Messages(s.messages);
        sessions := sessions[id := Drained(s).(lastActivity := now)];
      } else {
        r := SessionNotFound;
      }
    }

    /** `now` is read before the cleanup and `later` after it. */
    method TestActiveSessions(now: Time, later: Time) returns (res: bool)
      modifies this`sessions
      ensures forall id :: id in sessions <==>
        id in old(sessions) && old(sessions)[id].lastActivity + old(sessions)[id].timeout > now
      ensures forall id :: id in sessions ==> sessions[id] == old(sessions)[id]
      ensures res <==> (exists id :: id in sessions) || lastActivity - later > 60
      ensures sessions == Alive(old(sessions), now)
    {
      ghost var before := sessions;
      res := false;
      var changed := true;
      while changed
        invariant Cleaned(before, sessions, now) && (res ==> Alive(before, now) != map[])
        invariant !changed ==> sessions == Alive(before, now) && (sessions != map[] ==> res)
        decreases |sessions|, changed
      {
        changed := false;
        var todo := sessions.Keys;
        while todo != {}
          invariant !changed && todo <= sessions.Keys
          invariant forall id :: id in sessions.Keys - todo ==> IsAlive(sessions[id], now)
          invariant (res ==> Alive(before, now) != map[]) && (todo != sessions.Keys ==> res)
          decreases |todo|
        {
          var id :| id in todo;
          todo := todo - {id};
          if !IsAlive(sessions[id], now) {
            RemoveDead(before, sessions, id, now);
            sessions := sessions - {id};
            changed := true;
            break;
          }
          assert id in Alive(before, now);
          res := true;
        }
        if !changed { AllAlive(before, sessions, now); }
      }
      res := res || lastActivity - later > DEFAULT_TIMEOUT;
    }
  }

  /** Only dead sessions of `before` have been removed. */
  ghost predicate Cleaned(before: Sessions, m: Sessions, now: Time)
  {
    && (forall id :: id in m ==> id in before && m[id] == before[id])
    && (forall id :: id in before && IsAlive(before[id], now) ==> id in m)
  }

  lemma RemoveDead(before: Sessions, m: Sessions, id: Id, now: Time)
    requires Cleaned(before, m, now) && id in m && !IsAlive(m[id], now)
    ensures Cleaned(before, m - {id}, now) && |m - {id}| < |m|
  {
    assert (m - {id}).Keys == m.Keys - {id};
    assert |m.Keys| == |m| && |(m - {id}).Keys| == |m - {id}|;
  }

  lemma AliveMeans(m: Sessions, now: Time)
    ensures LivingOf(Alive(m, now), m, now)
    ensures Alive(m, now) != map[] <==> AnyLives(m, now)
  {
    if Alive(m, now) != map[] {
      var id :| id in Alive(m, now);
      assert id in m && Lives(m, id, now);
    }
  }

  lemma AllAlive(before: Sessions, m: Sessions, now: Time)
    requires Cleaned(before, m, now) && forall id :: id in m ==> IsAlive(m[id], now)
    ensures m == Alive(before, now)
  {
  }

  ghost predicate AllOk(m: Sessions, log: seq<Value>, lastId: nat)
  {
    forall id :: id in m ==> SessionOk(m[id], log) && 0 < id <= lastId
  }

  lemma AliveKeepsOk(m: Sessions, log: seq<Value>, lastId: nat, now: Time)
    requires AllOk(m, log, lastId)
    ensures AllOk(Alive(m, now), log, lastId)
  {
  }

  lemma FanKeepsOk(m: Sessions, log: seq<Value>, lastId: nat, v: Value)
    requires AllOk(m, log, lastId)
    ensures AllOk(Fanned(m, v), log + [v], lastId)
  {
    forall id | id in m ensures SessionOk(Pushed(m[id], v), log + [v]) {
      PushKeepsSession(m[id], log, v);
    }
  }

  ghost predicate SessionOk(s: Session, log: seq<Value>)
  {
    s.since <= |log| && Stream(s) == log[s.since..]
  }

  lemma PushKeepsSession(s: Session, log: seq<Value>, v: Value)
    requires SessionOk(s, log)
    ensures SessionOk(Pushed(s, v), log + [v])
  {
    assert (log + [v])[s.since..] == log[s.since..] + [v];
  }

  lemma AliveTwice(m: Sessions, now: Time)
    ensures Alive(Alive(m, now), now) == Alive(m, now)
  {
  }

  type Name = string

  class PubSubBroker {
    var channels: map<Name, Channel>

    /** No two names share a channel object. */
    ghost predicate Valid()
      reads this, channels.Values
    {
      && (forall a, b :: a in channels && b in channels && a != b ==> channels[a] != channels[b])
      && (forall a :: a in channels ==> channels[a].Valid())
    }

    constructor ()
      ensures Valid() && channels == map[]
    {
      channels := map[];
    }

    /** The channel of that name, made empty when there is none. */
    method GetChannel(name: Name) returns (c: Channel)
      requires Valid()
      modifies this
      ensures Valid() && name in channels && channels == old(channels)[name := c]
      ensures name in old(channels) ==> c == old(channels)[name]
      ensures name !in old(channels) ==> fresh(c) && c.sessions == map[] && c.lastId == 0 && c.log == []
    {
      if name in channels {
        c := channels[name];
      } else {
        c := new Channel();
        channels := channels[name := c];
      }
    }

    /** One round of the cleaner, with the clock standing still: what is left are exactly the
        channels with a live session, each with exactly its live sessions. */
    method Clean(now: Time)
      requires Valid()
      requires forall a :: a in channels ==> channels[a].lastActivity <= now
      modifies `channels, channels.Values`sessions
      ensures Valid()
      ensures forall a :: a in channels <==>
        a in old(channels) && AnyLives(old(channels[a].sessions), now)
      ensures forall a :: a in channels ==>
        channels[a] == old(channels[a]) && LivingOf(channels[a].sessions, old(channels[a].sessions), now)
    {
      ghost var before := channels;
      ghost var was := map a | a in channels :: channels[a].sessions;
      assert forall a :: a in before ==> AllOk(was[a], before[a].log, before[a].lastId);
      channels := CleanAll(before, was, channels, now);
      forall a | a in before { AliveMeans(was[a], now); }
      forall a | a in channels ensures channels[a].Valid() {
        assert AllOk(was[a], before[a].log, before[a].lastId);
        AliveKeepsOk(was[a], before[a].log, before[a].lastId, now);
      }
    }
  }

  /** The while loop of the cleaner. `before` and `was` are the channels and their sessions when it
      started. */
  method CleanAll(ghost before: map<Name, Channel>, ghost was: map<Name, Sessions>, channels: map<Name, Channel>,
                  now: Time)
    returns (left: map<Name, Channel>)
    requires Sweeping(before, was, channels, now)
    modifies before.Values`sessions
    ensures Sweeping(before, was, left, now) && AllSwept(before, was, left.Keys, now)
  {
    left := channels;
    var changed := true;
    while changed
      invariant Sweeping(before, was, left, now)
      invariant !changed ==> AllSwept(before, was, left.Keys, now)
      decreases |left|, changed
    {
      changed, left := CleanOnce(before, was, left, now);
    }
  }

  /** The for loop of the cleaner, which stops at the first channel that it erases. */
  method CleanOnce(ghost before: map<Name, Channel>, ghost was: map<Name, Sessions>, channels: map<Name, Channel>,
                   now: Time)
    returns (changed: bool, left: map<Name, Channel>)
    requires Sweeping(before, was, channels, now)
    modifies before.Values`sessions
    ensures Sweeping(before, was, left, now)
    ensures if changed then |left| < |channels| else left == channels && AllSwept(before, was, left.Keys, now)
  {
    var todo := channels.Keys;
    ghost var swept := {};
    while todo != {}
      invariant Parted(channels.Keys, todo, swept)
      invariant Sweeping(before, was, channels, now) && AllSwept(before, was, swept, now)
      decreases |todo|
    {
      var a :| a in todo;
      Pick(channels.Keys, todo, swept, a);
      todo := todo - {a};
      InValues(before, channels, a, channels[a]);
      changed, left := Visit(before, was, channels, a, channels[a], swept, now);
      if changed { return; }
      swept := swept + {a};
    }
    assert swept == channels.Keys;
    return false, channels;
  }

  ghost predicate Parted(names: set<Name>, todo: set<Name>, swept: set<Name>)
  {
    todo !! swept && todo + swept == names
  }

  lemma Pick(names: set<Name>, todo: set<Name>, swept: set<Name>, a: Name)
    requires Parted(names, todo, swept) && a in todo
    ensures a in names && a !in swept && Parted(names, todo - {a}, swept + {a}) && |todo - {a}| < |todo|
  {
  }

  lemma InValues(before: map<Name, Channel>, left: map<Name, Channel>, a: Name, c: Channel)
    requires a in left && a in before && left[a] == before[a] == c
    ensures c in before.Values
  {
  }

  ghost predicate AllSwept(before: map<Name, Channel>, was: map<Name, Sessions>, names: set<Name>, now: Time)
    reads before.Values
  {
    forall a :: a in names ==>
      a in before && a in was && before[a].sessions == Alive(was[a], now) && before[a].sessions != map[]
  }

  /** Tests channel `c`, of name `a`, and erases it when it has no live session. */
  method Visit(ghost before: map<Name, Channel>, ghost was: map<Name, Sessions>, channels: map<Name, Channel>,
               a: Name, c: Channel, ghost swept: set<Name>, now: Time)
    returns (erased: bool, left: map<Name, Channel>)
    requires Sweeping(before, was, channels, now) && a in channels && channels[a] == c
    requires AllSwept(before, was, swept, now) && a !in swept
    modifies c`sessions
    ensures Sweeping(before, was, left, now)
    ensures if erased then |left| < |channels| else left == channels && AllSwept(before, was, swept + {a}, now)
  {
    AliveTwice(was[a], now);
    var active := c.TestActiveSessions(now, now);
    assert c.sessions == Alive(was[a], now) && (active <==> c.sessions != map[]);
    assert forall b :: b in before && b != a ==> before[b] != c;
    if active {
      return false, channels;
    } else {
      EraseOne(before, was, channels, a, now);
      return true, channels - {a};
    }
  }

  lemma EraseOne(before: map<Name, Channel>, was: map<Name, Sessions>, left: map<Name, Channel>, a: Name, now: Time)
    requires Sweeping(before, was, left, now) && a in left && Alive(was[a], now) == map[]
    ensures Sweeping(before, was, left - {a}, now) && |left - {a}| < |left|
  {
    assert (left - {a}).Keys == left.Keys - {a};
    assert |left.Keys| == |left| && |(left - {a}).Keys| == |left - {a}|;
  }

  /** The cleaner on its way: every channel is as it was or has been tested, and those already
      erased had no live session. */
  ghost predicate Sweeping(before: map<Name, Channel>, was: map<Name, Sessions>, left: map<Name, Channel>, now: Time)
    reads before.Values
  {
    && was.Keys == before.Keys && left.Keys <= before.Keys
    && (forall a, b :: a in before && b in before && a != b ==> before[a] != before[b])
    && (forall a :: a in before ==>
          && before[a].lastActivity <= now
          && (before[a].sessions == was[a] || before[a].sessions == Alive(was[a], now))
          && if a in left then left[a] == before[a] else Alive(was[a], now) == map[])
  }

  // ---- the whole operations as runs of steps ----

  lemma {:induction false} RunsJoin(s: State, first: seq<Action>, second: seq<Action>)
    requires IsRun(s, first) && IsRun(After(s, first), second)
    ensures IsRun(s, first + second) && After(s, first + second) == After(After(s, first), second)
    decreases first
  {
    if first == [] {
      assert first + second == second;
    } else {
      assert (first + second)[1..] == first[1..] + second;
      RunsJoin(Do(s, first[0]), first[1..], second);
    }
  }

  lemma OneStep(s: State, a: Action)
    requires Enabled(s, a)
    ensures IsRun(s, [a]) && After(s, [a]) == Do(s, a)
  {
    assert [a][1..] == [];
  }

  /** The sessions in `todo` still get the message, in any order. */
  lemma {:induction false} FanOut(s: State) returns (actions: seq<Action>)
    requires s.holder.Publishing? && s.holder.todo <= s.sessions.Keys
    ensures IsRun(s, actions)
    ensures After(s, actions) == s.(
      sessions := map id | id in s.sessions ::
        if id in s.holder.todo then Pushed(s.sessions[id], s.holder.value) else s.sessions[id],
      holder := Publishing(s.holder.value, {}))
    decreases |s.holder.todo|
  {
    if s.holder.todo == {} {
      actions := [];
      assert s.sessions == map id | id in s.sessions :: s.sessions[id];
    } else {
      var id :| id in s.holder.todo;
      var n := Do(s, PublishTo(id));
      var rest := FanOut(n);
      OneStep(s, PublishTo(id));
      RunsJoin(s, [PublishTo(id)], rest);
      actions := [PublishTo(id)] + rest;
    }
  }

  /** A publish that nobody interleaves with does to the sessions what Channel.Publish does. */
  lemma PublishIsARun(s: State, v: Value) returns (actions: seq<Action>)
    requires s.holder == Nobody
    ensures IsRun(s, actions)
    ensures After(s, actions) == s.(sessions := Fanned(s.sessions, v), log := s.log + [v])
  {
    var s1 := Do(s, PublishBegin(v));
    var fan := FanOut(s1);
    var s2 := After(s1, fan);
    OneStep(s, PublishBegin(v));
    RunsJoin(s, [PublishBegin(v)], fan);
    OneStep(s2, PublishEnd);
    RunsJoin(s, [PublishBegin(v)] + fan, [PublishEnd]);
    actions := [PublishBegin(v)] + fan + [PublishEnd];
    assert s2.sessions == Fanned(s.sessions, v);
  }

  lemma {:induction false} EraseAll(s: State) returns (actions: seq<Action>)
    requires s.holder.Cleaning?
    ensures IsRun(s, actions)
    ensures var n := After(s, actions);
      && n.sessions == Alive(s.sessions, s.holder.at)
      && n == s.(sessions := n.sessions, erased := n.erased)
      && Enabled(n, CleanEnd)
    decreases |s.sessions|
  {
    if forall id :: id in s.sessions ==> IsAlive(s.sessions[id], s.holder.at) {
      actions := [];
    } else {
      var id :| id in s.sessions && !IsAlive(s.sessions[id], s.holder.at);
      RemoveDead(s.sessions, s.sessions, id, s.holder.at);
      var rest := EraseAll(Do(s, Erase(id)));
      OneStep(s, Erase(id));
      RunsJoin(s, [Erase(id)], rest);
      actions := [Erase(id)] + rest;
    }
  }

  /** And a cleanup does what Channel.TestActiveSessions does. */
  lemma CleanIsARun(s: State) returns (actions: seq<Action>)
    requires s.holder == Nobody
    ensures IsRun(s, actions)
    ensures var n := After(s, actions);
      n.sessions == Alive(s.sessions, s.now) && n == s.(sessions := n.sessions, erased := n.erased)
  {
    var s1 := Do(s, CleanBegin(s.now));
    var erase := EraseAll(s1);
    OneStep(s, CleanBegin(s.now));
    RunsJoin(s, [CleanBegin(s.now)], erase);
    OneStep(After(s1, erase), CleanEnd);
    RunsJoin(s, [CleanBegin(s.now)] + erase, [CleanEnd]);
    actions := [CleanBegin(s.now)] + erase + [CleanEnd];
  }
}
