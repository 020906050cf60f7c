/** How compound rules run, one level at a time: laws that hold in every well-formed grammar. */
module EngineLaws {
  import opened Grammars
  import opened Engine

  /** A rule may be run here: the grammar passed the check and the position is inside the text. */
  ghost predicate Runnable(g: Grammar, r: Rule, s: string, p: nat)
  {
    WellFormed(g) && Productive(g, r) && p <= |s|
  }

  function Then(o1: Outcome, o2: Outcome): Outcome
  {
    Outcome(o2.ok, o2.pos, o1.trace + o2.trace)
  }

  lemma AndRuns(g: Grammar, a: Rule, b: Rule, s: string, p: nat)
    requires Runnable(g, And(a, b), s, p)
    ensures Productive(g, a) && Productive(g, b)
    ensures var o := Eval(g, a, s, p);
            Eval(g, And(a, b), s, p) == if o.ok then Then(o, Eval(g, b, s, o.pos)) else o
  {
  }

  lemma OrRuns(g: Grammar, a: Rule, b: Rule, s: string, p: nat)
    requires Runnable(g, Or(a, b), s, p)
    ensures Productive(g, a) && Productive(g, b)
    ensures var o := Eval(g, a, s, p);
            Eval(g, Or(a, b), s, p) == if o.ok then o else Then(o, Eval(g, b, s, o.pos))
  {
  }

  lemma ExtractorRuns(g: Grammar, a: Rule, action: ActionId, s: string, p: nat)
    requires Runnable(g, Extractor(a, action), s, p)
    ensures Productive(g, a)
    ensures var o := Eval(g, a, s, p);
            Eval(g, Extractor(a, action), s, p) ==
            if o.ok then Outcome(true, o.pos, o.trace + [Fired(action, p, o.pos)]) else Outcome(false, p, o.trace)
  {
  }

  lemma RefRuns(g: Grammar, i: nat, body: Rule, s: string, p: nat)
    requires Runnable(g, Ref(i), s, p) && g.slots[i] == Assigned(body)
    ensures Productive(g, body) && Eval(g, Ref(i), s, p) == Eval(g, body, s, p)
  {
    assert SlotFits(g, g.slots[i], g.claims[i]);
  }

  /** An optional rule always succeeds, and stays wherever its body stopped, even if that failed. */
  lemma MaybeRuns(g: Grammar, a: Rule, s: string, p: nat)
    requires Runnable(g, Maybe(a), s, p)
    ensures Productive(g, a)
    ensures var o := Eval(g, a, s, p); Eval(g, Maybe(a), s, p) == Outcome(true, o.pos, o.trace)
  {
    var o := Eval(g, a, s, p);
    assert o.ok ==> Iterate(g, Maybe(a), s, o.pos, 1) == Repeats(1, o.pos, []);
    assert o.trace + [] == o.trace;
    assert Iterate(g, Maybe(a), s, p, 0) == Repeats(if o.ok then 1 else 0, o.pos, o.trace);
  }

  /** Without an upper limit, counting does not change where an iteration goes. */
  lemma {:induction false} CountIsIdle(g: Grammar, r: Rule, s: string, p: nat, count: nat)
    requires Runnable(g, r, s, p) && r.Iteration? && r.max < 0
    ensures var o, o0 := Iterate(g, r, s, p, count), Iterate(g, r, s, p, 0);
            o.pos == o0.pos && o.trace == o0.trace && o.count == o0.count + count
    decreases |s| - p
  {
    var o := Eval(g, r.rule, s, p);
    if o.ok {
      CountIsIdle(g, r, s, o.pos, count + 1);
      CountIsIdle(g, r, s, o.pos, 1);
    }
  }

  /** `*a` is `a` and then `*a`, up to and including the place where a last `a` failed. */
  lemma StarRuns(g: Grammar, a: Rule, s: string, p: nat)
    requires Runnable(g, Star(a), s, p)
    ensures Productive(g, a)
    ensures var o := Eval(g, a, s, p);
            Eval(g, Star(a), s, p)
            == if o.ok then Then(o, Eval(g, Star(a), s, o.pos)) else Outcome(true, o.pos, o.trace)
  {
    var o := Eval(g, a, s, p);
    if o.ok { CountIsIdle(g, Star(a), s, o.pos, 1); }
  }

  /** `+a` is `a` and then `*a`; unlike `*a` it can fail, and then it does not move. */
  lemma PlusRuns(g: Grammar, a: Rule, s: string, p: nat)
    requires Runnable(g, Plus(a), s, p)
    ensures Productive(g, a) && Productive(g, Star(a))
    ensures var o := Eval(g, a, s, p);
            Eval(g, Plus(a), s, p) == if o.ok then Then(o, Eval(g, Star(a), s, o.pos)) else Outcome(false, p, o.trace)
  {
    var o := Eval(g, a, s, p);
    if o.ok {
      CountIsIdle(g, Plus(a), s, o.pos, 1);
      PlusAndStarIterateAlike(g, a, s, o.pos);
    }
  }

  lemma {:induction false} PlusAndStarIterateAlike(g: Grammar, a: Rule, s: string, p: nat)
    requires Runnable(g, Plus(a), s, p)
    ensures Iterate(g, Plus(a), s, p, 0) == Iterate(g, Star(a), s, p, 0)
    decreases |s| - p
  {
    var o := Eval(g, a, s, p);
    if o.ok {
      CountIsIdle(g, Plus(a), s, o.pos, 1);
      CountIsIdle(g, Star(a), s, o.pos, 1);
      PlusAndStarIterateAlike(g, a, s, o.pos);
    }
  }

  /** `*` and `+` over one character class: the maximal run. */
  function RunEnd(c: CharClass, s: string, p: nat): (q: nat)
    requires p <= |s|
    ensures p <= q <= |s|
    decreases |s| - p
  {
    if p < |s| && InClass(c, s[p]) then RunEnd(c, s, p + 1) else p
  }

  lemma {:induction false} ClassRun(g: Grammar, c: CharClass, s: string, p: nat)
    requires Runnable(g, Star(CType(c)), s, p)
    ensures Eval(g, Star(CType(c)), s, p) == Outcome(true, RunEnd(c, s, p), [])
    decreases |s| - p
  {
    StarRuns(g, CType(c), s, p);
    if p < |s| && InClass(c, s[p]) { ClassRun(g, c, s, p + 1); }
  }

  lemma ClassRun1(g: Grammar, c: CharClass, s: string, p: nat)
    requires Runnable(g, Plus(CType(c)), s, p)
    ensures var q := RunEnd(c, s, p); Eval(g, Plus(CType(c)), s, p) == Outcome(q > p, q, [])
  {
    PlusRuns(g, CType(c), s, p);
    if p < |s| && InClass(c, s[p]) { ClassRun(g, c, s, p + 1); }
  }

  /** What is left of two outcomes in a row: a failure ends the conjunction. */
  function Join(o1: Outcome, o2: Outcome): Outcome
  {
    if o1.ok then Then(o1, o2) else o1
  }

  lemma And3Runs(g: Grammar, a: Rule, b: Rule, c: Rule, s: string, p: nat)
    requires Runnable(g, And3(a, b, c), s, p)
    ensures Productive(g, a) && Productive(g, b) && Productive(g, c)
    ensures var o1 := Eval(g, a, s, p);
            var o2 := Join(o1, Eval(g, b, s, o1.pos));
            Eval(g, And3(a, b, c), s, p) == Join(o2, Eval(g, c, s, o2.pos))
  {
    AndRuns(g, And(a, b), c, s, p);
    AndRuns(g, a, b, s, p);
  }

  lemma And5Runs(g: Grammar, a: Rule, b: Rule, c: Rule, d: Rule, e: Rule, s: string, p: nat)
    requires Runnable(g, And5(a, b, c, d, e), s, p)
    ensures Productive(g, a) && Productive(g, b) && Productive(g, c) && Productive(g, d) && Productive(g, e)
    ensures var o1 := Eval(g, a, s, p);
            var o2 := Join(o1, Eval(g, b, s, o1.pos));
            var o3 := Join(o2, Eval(g, c, s, o2.pos));
            var o4 := Join(o3, Eval(g, d, s, o3.pos));
            Eval(g, And5(a, b, c, d, e), s, p) == Join(o4, Eval(g, e, s, o4.pos))
  {
    AndRuns(g, And(And3(a, b, c), d), e, s, p);
    AndRuns(g, And3(a, b, c), d, s, p);
    And3Runs(g, a, b, c, s, p);
  }

  /** Five parts of which the second and the fourth match without calling anything. */
  lemma And5Matches(g: Grammar, a: Rule, b: Rule, c: Rule, d: Rule, e: Rule, s: string, p: nat, o1: Outcome, p2: nat,
                    o3: Outcome, p4: nat)
    requires Runnable(g, And5(a, b, c, d, e), s, p)
    requires Productive(g, a) && Productive(g, b) && Productive(g, c) && Productive(g, d) && Productive(g, e)
    requires Eval(g, a, s, p) == o1 && o1.ok && Eval(g, b, s, o1.pos) == Outcome(true, p2, [])
    requires Eval(g, c, s, p2) == o3 && o3.ok && Eval(g, d, s, o3.pos) == Outcome(true, p4, [])
    ensures var o5 := Eval(g, e, s, p4);
            Eval(g, And5(a, b, c, d, e), s, p) == Outcome(o5.ok, o5.pos, o1.trace + o3.trace + o5.trace)
  {
    AndRuns(g, And4(a, b, c, d), e, s, p);
    AndRuns(g, And3(a, b, c), d, s, p);
    And3Runs(g, a, b, c, s, p);
    assert o1.trace + [] == o1.trace;
    assert o1.trace + o3.trace + [] == o1.trace + o3.trace;
  }

  /** When an alternative fails after moving and calling, the later ones go on from there. */
  lemma LaterAlternatives(g: Grammar, first: Rule, a: Rule, b: Rule, c: Rule, s: string, p: nat, o: Outcome)
    requires Runnable(g, Or(Or(Or(first, a), b), c), s, p)
    requires Productive(g, first) && Productive(g, a) && Productive(g, b) && Productive(g, c)
    requires Eval(g, first, s, p) == Outcome(false, p, []) && Eval(g, a, s, p) == o && !o.ok
    ensures var o1 := Eval(g, b, s, o.pos);
            var o2 := Eval(g, c, s, o1.pos);
            Eval(g, Or(Or(Or(first, a), b), c), s, p) == if o1.ok then Then(o, o1) else Then(Then(o, o1), o2)
  {
    var o1 := Eval(g, b, s, o.pos);
    assert [] + o.trace == o.trace;
    assert Eval(g, Or(first, a), s, p) == o by { OrRuns(g, first, a, s, p); }
    assert Eval(g, Or(Or(first, a), b), s, p) == Then(o, o1) by { OrRuns(g, Or(first, a), b, s, p); }
    OrRuns(g, Or(Or(first, a), b), c, s, p);
  }

  /** Ordered choice: when the alternatives before the k-th fail in place and that one matches,
      the choice does what it does. */
  lemma {:induction false} FirstMatch(g: Grammar, rs: seq<Rule>, s: string, p: nat, k: nat)
    requires rs != [] && Runnable(g, Choice(rs), s, p) && k < |rs|
    requires forall j :: 0 <= j <= k ==> Productive(g, rs[j])
    requires forall j :: 0 <= j < k ==> Eval(g, rs[j], s, p) == Outcome(false, p, [])
    requires Eval(g, rs[k], s, p).ok
    ensures Eval(g, Choice(rs), s, p) == Eval(g, rs[k], s, p)
  {
    if |rs| > 1 {
      var init := rs[..|rs| - 1];
      OrRuns(g, Choice(init), rs[|rs| - 1], s, p);
      if k < |rs| - 1 {
        FirstMatch(g, init, s, p, k);
      } else {
        AllFail(g, init, s, p);
        var o := Eval(g, rs[k], s, p);
        assert [] + o.trace == o.trace;
      }
    }
  }

  lemma {:induction false} AllFail(g: Grammar, rs: seq<Rule>, s: string, p: nat)
    requires rs != [] && Runnable(g, Choice(rs), s, p)
    requires forall j :: 0 <= j < |rs| ==> Productive(g, rs[j]) && Eval(g, rs[j], s, p) == Outcome(false, p, [])
    ensures Eval(g, Choice(rs), s, p) == Outcome(false, p, [])
  {
    if |rs| > 1 {
      var init := rs[..|rs| - 1];
      OrRuns(g, Choice(init), rs[|rs| - 1], s, p);
      AllFail(g, init, s, p);
    }
  }

  // ---- what the callables are given ----

  /** A callable is only ever given a range of the text that has been read. */
  predicate InOrder(trace: seq<Event>, p: nat, q: nat)
  {
    forall i :: 0 <= i < |trace| ==>
      match trace[i] case Fired(_, from, to) => p <= from <= to <= q case Reported(_, at) => p <= at <= q
  }

  lemma OrderJoins(xs: seq<Event>, ys: seq<Event>, p: nat, m: nat, q: nat, t: nat)
    requires InOrder(xs, p, q) && InOrder(ys, m, t) && p <= m && q <= t
    ensures InOrder(xs + ys, p, t)
  {
  }

  /** Every range handed to a callable, by any rule on any text, lies in the text after the place
      where the rule started; failed parts and attempts that were given back included. */
  lemma {:induction false} RangesInOrder(g: Grammar, r: Rule, s: string, p: nat)
    requires Runnable(g, r, s, p)
    ensures InOrder(Eval(g, r, s, p).trace, p, |s|)
    decreases |s| - p, LeftRank(g, r), r, 1, 0
  {
    match r
    case And(a, b) =>
      RangesInOrder(g, a, s, p);
      var o := Eval(g, a, s, p);
      if o.ok {
        RangesInOrder(g, b, s, o.pos);
        OrderJoins(o.trace, Eval(g, b, s, o.pos).trace, p, o.pos, |s|, |s|);
      }
    case Or(a, b) =>
      RangesInOrder(g, a, s, p);
      var o := Eval(g, a, s, p);
      if !o.ok {
        RangesInOrder(g, b, s, o.pos);
        OrderJoins(o.trace, Eval(g, b, s, o.pos).trace, p, o.pos, |s|, |s|);
      }
    case Exception(a, b) =>
      RangesInOrder(g, a, s, p);
      RangesInOrder(g, b, s, p);
      OrderJoins(Eval(g, a, s, p).trace, Eval(g, b, s, p).trace, p, p, |s|, |s|);
    case Iteration(_, _, _) => RangesInOrderIterated(g, r, s, p, 0);
    case Not(a) => RangesInOrder(g, a, s, p);
    case Extractor(a, action) =>
      RangesInOrder(g, a, s, p);
      var o := Eval(g, a, s, p);
      OrderJoins(o.trace, [Fired(action, p, o.pos)], p, p, |s|, |s|);
    case Error(a, action) =>
      RangesInOrder(g, a, s, p);
      OrderJoins(Eval(g, a, s, p).trace, [Reported(action, p)], p, p, |s|, |s|);
    case Ref(i) =>
      assert SlotFits(g, g.slots[i], g.claims[i]);
      if g.slots[i].Assigned? { RangesInOrder(g, g.slots[i].rule, s, p); }
    case _ =>
  }

  lemma {:induction false} RangesInOrderIterated(g: Grammar, r: Rule, s: string, p: nat, count: nat)
    requires Runnable(g, r, s, p) && r.Iteration?
    ensures InOrder(Iterate(g, r, s, p, count).trace, p, |s|)
    decreases |s| - p, LeftRank(g, r), r, 0, if r.max >= 0 && r.max >= count then r.max - count else 0
  {
    if !(0 <= r.max <= count) {
      RangesInOrder(g, r.rule, s, p);
      var o := Eval(g, r.rule, s, p);
      if o.ok {
        RangesInOrderIterated(g, r, s, o.pos, count + 1);
        OrderJoins(o.trace, Iterate(g, r, s, o.pos, count + 1).trace, p, o.pos, |s|, |s|);
      }
    }
  }

  function StartOf(e: Event): nat { if e.Fired? then e.from else e.at }

  /** A callable that throws leaves the caller no further than the range it was given. */
  lemma {:induction false} HeldBefore(g: Grammar, r: Rule, s: string, p: nat, k: nat)
    requires Runnable(g, r, s, p) && k < |Eval(g, r, s, p).trace|
    ensures HeldAt(g, r, s, p, k) <= StartOf(Eval(g, r, s, p).trace[k])
    decreases |s| - p, LeftRank(g, r), r
  {
    match r
    case And(a, b) =>
      var o := Eval(g, a, s, p);
      if !o.ok || k < |o.trace| { HeldBefore(g, a, s, p, k); } else { HeldBefore(g, b, s, o.pos, k - |o.trace|); }
    case Or(a, b) =>
      var o := Eval(g, a, s, p);
      if o.ok || k < |o.trace| { HeldBefore(g, a, s, p, k); } else { HeldBefore(g, b, s, o.pos, k - |o.trace|); }
    case Ref(i) =>
      assert SlotFits(g, g.slots[i], g.claims[i]);
      if g.slots[i].Assigned? { HeldBefore(g, g.slots[i].rule, s, p, k); }
    case _ => RangesInOrder(g, r, s, p);
  }

  // ---- and that its rule matched it ----

  /** Somewhere in `r` the callable `a` is bound to the rule `x`. */
  predicate BoundIn(r: Rule, x: Rule, a: ActionId)
  {
    match r
    case And(r1, r2) => BoundIn(r1, x, a) || BoundIn(r2, x, a)
    case Or(r1, r2) => BoundIn(r1, x, a) || BoundIn(r2, x, a)
    case Exception(r1, r2) => BoundIn(r1, x, a) || BoundIn(r2, x, a)
    case Iteration(r1, _, _) => BoundIn(r1, x, a)
    case Not(r1) => BoundIn(r1, x, a)
    case Extractor(r1, b) => (r1 == x && b == a) || BoundIn(r1, x, a)
    case Error(r1, _) => BoundIn(r1, x, a)
    case _ => false
  }

  /** Or in one of the slots. */
  ghost predicate Bound(g: Grammar, r: Rule, x: Rule, a: ActionId)
  {
    BoundIn(r, x, a) ||
    exists i :: 0 <= i < |g.slots| && g.slots[i].Assigned? && BoundIn(g.slots[i].rule, x, a)
  }

  ghost predicate Part(g: Grammar, whole: Rule, r: Rule)
  {
    forall x, a :: BoundIn(r, x, a) ==> Bound(g, whole, x, a)
  }

  /** The range that the callable was given is one that a rule it is bound to matches. */
  ghost predicate Given(g: Grammar, whole: Rule, s: string, e: Event)
  {
    e.Fired? ==> exists x ::
      && Bound(g, whole, x, e.action) && Runnable(g, x, s, e.from)
      && Eval(g, x, s, e.from).ok && Eval(g, x, s, e.from).pos == e.to
  }

  ghost predicate AllGiven(g: Grammar, whole: Rule, s: string, trace: seq<Event>)
  {
    forall e :: e in trace ==> Given(g, whole, s, e)
  }

  lemma GivenJoins(g: Grammar, whole: Rule, s: string, xs: seq<Event>, ys: seq<Event>)
    requires AllGiven(g, whole, s, xs) && AllGiven(g, whole, s, ys)
    ensures AllGiven(g, whole, s, xs + ys)
  {
  }

  lemma OneGiven(g: Grammar, whole: Rule, s: string, x: Rule, action: ActionId, p: nat)
    requires Runnable(g, x, s, p) && Bound(g, whole, x, action) && Eval(g, x, s, p).ok
    ensures AllGiven(g, whole, s, [Fired(action, p, Eval(g, x, s, p).pos)])
  {
  }

  lemma {:induction false} PartsMatch(g: Grammar, whole: Rule, r: Rule, s: string, p: nat)
    requires Runnable(g, r, s, p) && Part(g, whole, r)
    ensures AllGiven(g, whole, s, Eval(g, r, s, p).trace)
    decreases |s| - p, LeftRank(g, r), r, 1, 0
  {
    match r
    case And(a, b) =>
      PartsMatch(g, whole, a, s, p);
      var o := Eval(g, a, s, p);
      if o.ok {
        PartsMatch(g, whole, b, s, o.pos);
        GivenJoins(g, whole, s, o.trace, Eval(g, b, s, o.pos).trace);
      }
    case Or(a, b) =>
      PartsMatch(g, whole, a, s, p);
      var o := Eval(g, a, s, p);
      if !o.ok {
        PartsMatch(g, whole, b, s, o.pos);
        GivenJoins(g, whole, s, o.trace, Eval(g, b, s, o.pos).trace);
      }
    case Exception(a, b) =>
      PartsMatch(g, whole, a, s, p);
      PartsMatch(g, whole, b, s, p);
      GivenJoins(g, whole, s, Eval(g, a, s, p).trace, Eval(g, b, s, p).trace);
    case Iteration(_, _, _) => RepeatsMatch(g, whole, r, s, p, 0);
    case Not(a) => PartsMatch(g, whole, a, s, p);
    case Extractor(a, action) =>
      PartsMatch(g, whole, a, s, p);
      var o := Eval(g, a, s, p);
      if o.ok {
        assert BoundIn(r, a, action);
        OneGiven(g, whole, s, a, action, p);
        GivenJoins(g, whole, s, o.trace, [Fired(action, p, o.pos)]);
      }
    case Error(a, _) => PartsMatch(g, whole, a, s, p);
    case Ref(i) =>
      assert SlotFits(g, g.slots[i], g.claims[i]);
      if g.slots[i].Assigned? { PartsMatch(g, whole, g.slots[i].rule, s, p); }
    case _ =>
  }

  lemma {:induction false} RepeatsMatch(g: Grammar, whole: Rule, r: Rule, s: string, p: nat, count: nat)
    requires Runnable(g, r, s, p) && r.Iteration? && Part(g, whole, r)
    ensures AllGiven(g, whole, s, Iterate(g, r, s, p, count).trace)
    decreases |s| - p, LeftRank(g, r), r, 0, if r.max >= 0 && r.max >= count then r.max - count else 0
  {
    if !(0 <= r.max <= count) {
      PartsMatch(g, whole, r.rule, s, p);
      var o := Eval(g, r.rule, s, p);
      if o.ok {
        RepeatsMatch(g, whole, r, s, o.pos, count + 1);
        GivenJoins(g, whole, s, o.trace, Iterate(g, r, s, o.pos, count + 1).trace);
      }
    }
  }

  /** Every range handed to a callable, in failed parts and attempts given back too, is one that a rule
      it is bound to matches from there, exactly. */
  lemma RangesMatch(g: Grammar, r: Rule, s: string, p: nat)
    requires Runnable(g, r, s, p)
    ensures forall e :: e in Eval(g, r, s, p).trace && e.Fired? ==> exists x ::
      && Bound(g, r, x, e.action) && Runnable(g, x, s, e.from)
      && Eval(g, x, s, e.from).ok && Eval(g, x, s, e.from).pos == e.to
  {
    PartsMatch(g, r, r, s, p);
    assert forall e :: e in Eval(g, r, s, p).trace ==> Given(g, r, s, e);
  }
}
