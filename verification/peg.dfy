/** How the engine relates to parsing expression grammars: there, a rule that fails gives back
    what it consumed, always. Here it does so only for some rules. */
module Peg {
  import opened Grammars
  import opened Engine

  datatype PegResult = Fail | Match(pos: nat)

  /** The textbook meaning of a rule: ordered choice restarts at the same place, repetition ends
      where its last success ended. */
  function PegParse(g: Grammar, r: Rule, s: string, p: nat): (o: PegResult)
    requires WellFormed(g) && Productive(g, r) && p <= |s|
    ensures o.Match? ==> p <= o.pos <= |s| && (o.pos == p ==> Nullable(g, r))
    decreases |s| - p, LeftRank(g, r), r, 1, 0
  {
    match r
    case AnyChar => if p < |s| then Match(p + 1) else Fail
    case End => if p == |s| then Match(p) else Fail
    case NullMatch => Match(p)
    case Lookahead(text) => if p + |text| < |s| && HasAt(s, p, text) then Match(p) else Fail
    case Char(ch) => if p < |s| && s[p] == ch then Match(p + 1) else Fail
    case CType(c) => if p < |s| && InClass(c, s[p]) then Match(p + 1) else Fail
    case Literal(lit) => if HasAt(s, p, lit) then Match(p + |lit|) else Fail
    case And(a, b) =>
      var o := PegParse(g, a, s, p);
      if o.Fail? then Fail else PegParse(g, b, s, o.pos)
    case Or(a, b) =>
      var o := PegParse(g, a, s, p);
      if o.Match? then o else PegParse(g, b, s, p)
    case Exception(a, b) => if PegParse(g, b, s, p).Match? then Fail else PegParse(g, a, s, p)
    case Iteration(_, min, _) =>
      var (n, q) := Repeat(g, r, s, p, 0);
      if n >= min then Match(q) else Fail
    case Not(a) => if PegParse(g, a, s, p).Fail? then Match(p) else Fail
    case Extractor(a, _) => PegParse(g, a, s, p)
    case Error(a, _) => PegParse(g, a, s, p)
    case Ref(i) =>
      assert SlotFits(g, g.slots[i], g.claims[i]);
      if g.slots[i].Unassigned? then Match(p) else PegParse(g, g.slots[i].rule, s, p)
  }

  function Repeat(g: Grammar, r: Rule, s: string, p: nat, count: nat): (o: (nat, nat))
    requires WellFormed(g) && Productive(g, r) && r.Iteration? && p <= |s|
    ensures p <= o.1 <= |s| && count <= o.0
    ensures o.0 > count && o.1 == p ==> Nullable(g, r.rule)
    decreases |s| - p, LeftRank(g, r), r, 0, if r.max >= 0 && r.max >= count then r.max - count else 0
  {
    if 0 <= r.max <= count then (count, p) else
    var o := PegParse(g, r.rule, s, p);
    if o.Fail? then (count, p) else Repeat(g, r, s, o.pos, count + 1)
  }

  /** Never moves the position, whatever its verdict. */
  predicate Fixed(r: Rule)
  {
    match r
    case End => true
    case NullMatch => true
    case Lookahead(_) => true
    case Not(_) => true
    case Extractor(a, _) => Fixed(a)
    case Error(a, _) => Fixed(a)
    case And(a, b) => Fixed(a) && Fixed(b)
    case Or(a, b) => Fixed(a) && Fixed(b)
    case _ => false
  }

  /** Never fails. */
  predicate Infallible(g: Grammar, r: Rule)
  {
    match r
    case NullMatch => true
    case Literal(lit) => lit == ""
    case And(a, b) => Infallible(g, a) && Infallible(g, b)
    case Or(a, b) => Infallible(g, a) || Infallible(g, b)
    case Iteration(_, min, _) => min <= 0
    case Extractor(a, _) => Infallible(g, a)
    case Error(a, _) => Infallible(g, a)
    case Ref(i) => i < |g.claims| && g.claims[i].infallible
    case _ => false
  }

  /** Leaves the position alone when it fails. */
  predicate Restores(g: Grammar, r: Rule)
  {
    match r
    case And(a, b) => Restores(g, a) && (Infallible(g, b) || (Fixed(a) && Restores(g, b)))
    case Or(a, b) => Infallible(g, r) || (Restores(g, a) && Restores(g, b))
    case Ref(i) => i < |g.claims| && g.claims[i].restores
    case _ => true
  }

  /** Every left operand of `|` and every body of an iteration restores. */
  predicate Safe(g: Grammar, r: Rule)
  {
    match r
    case And(a, b) => Safe(g, a) && Safe(g, b)
    case Or(a, b) => Safe(g, a) && Safe(g, b) && Restores(g, a)
    case Exception(a, b) => Safe(g, a) && Safe(g, b)
    case Iteration(a, _, _) => Safe(g, a) && Restores(g, a)
    case Not(a) => Safe(g, a)
    case Extractor(a, _) => Safe(g, a)
    case Error(a, _) => Safe(g, a)
    case _ => true
  }

  /** What a well-formed grammar claims about restoring and failing is true of its slots. */
  ghost predicate ClaimsHold(g: Grammar)
    requires WellFormed(g)
  {
    forall i {:trigger g.slots[i]} :: 0 <= i < |g.slots| && g.slots[i].Assigned? ==>
      && (g.claims[i].restores ==> Restores(g, g.slots[i].rule))
      && (g.claims[i].infallible ==> Infallible(g, g.slots[i].rule))
  }

  ghost predicate SafeGrammar(g: Grammar)
    requires WellFormed(g)
  {
    && ClaimsHold(g)
    && forall i {:trigger g.slots[i]} :: 0 <= i < |g.slots| && g.slots[i].Assigned? ==> Safe(g, g.slots[i].rule)
  }

  /** The syntactic checks are sound. */
  lemma {:induction false} ChecksAreSound(g: Grammar, r: Rule, s: string, p: nat)
    requires WellFormed(g) && ClaimsHold(g) && Productive(g, r) && p <= |s|
    ensures Fixed(r) ==> Eval(g, r, s, p).pos == p
    ensures Infallible(g, r) ==> Eval(g, r, s, p).ok
    ensures Restores(g, r) && !Eval(g, r, s, p).ok ==> Eval(g, r, s, p).pos == p
    decreases |s| - p, LeftRank(g, r), r
  {
    match r
    case And(a, b) =>
      ChecksAreSound(g, a, s, p);
      var o := Eval(g, a, s, p);
      if o.ok { ChecksAreSound(g, b, s, o.pos); }
    case Or(a, b) =>
      ChecksAreSound(g, a, s, p);
      var o := Eval(g, a, s, p);
      if !o.ok { ChecksAreSound(g, b, s, o.pos); }
    case Extractor(a, _) => ChecksAreSound(g, a, s, p);
    case Error(a, _) => ChecksAreSound(g, a, s, p);
    case Ref(i) =>
      assert SlotFits(g, g.slots[i], g.claims[i]);
      if g.slots[i].Assigned? { ChecksAreSound(g, g.slots[i].rule, s, p); }
    case _ =>
  }

  ghost predicate Agree(g: Grammar, r: Rule, s: string, p: nat)
    requires WellFormed(g) && Productive(g, r) && p <= |s|
  {
    var o, q := Eval(g, r, s, p), PegParse(g, r, s, p);
    o.ok == q.Match? && (o.ok ==> o.pos == q.pos)
  }

  /** For safe grammars the engine, although a conjunction never backtracks, has the textbook
      meaning on every input. */
  lemma {:induction false} SafeMeansPeg(g: Grammar, r: Rule, s: string, p: nat)
    requires WellFormed(g) && SafeGrammar(g) && Productive(g, r) && Safe(g, r) && p <= |s|
    ensures Agree(g, r, s, p)
    decreases |s| - p, LeftRank(g, r), r, 1, 0
  {
    match r
    case And(a, b) =>
      SafeMeansPeg(g, a, s, p);
      var o := Eval(g, a, s, p);
      if o.ok { SafeMeansPeg(g, b, s, o.pos); }
    case Or(a, b) =>
      SafeMeansPeg(g, a, s, p);
      ChecksAreSound(g, a, s, p);
      if !Eval(g, a, s, p).ok { SafeMeansPeg(g, b, s, p); }
    case Exception(a, b) => SafeMeansPeg(g, a, s, p); SafeMeansPeg(g, b, s, p);
    case Iteration(_, _, _) => SafeIterationMeansPeg(g, r, s, p, 0);
    case Not(a) => SafeMeansPeg(g, a, s, p);
    case Extractor(a, _) => SafeMeansPeg(g, a, s, p);
    case Error(a, _) => SafeMeansPeg(g, a, s, p);
    case Ref(i) =>
      assert SlotFits(g, g.slots[i], g.claims[i]);
      if g.slots[i].Assigned? { SafeMeansPeg(g, g.slots[i].rule, s, p); }
    case _ =>
  }

  lemma {:induction false} SafeIterationMeansPeg(g: Grammar, r: Rule, s: string, p: nat, count: nat)
    requires WellFormed(g) && SafeGrammar(g) && Productive(g, r) && Safe(g, r) && r.Iteration? && p <= |s|
    ensures var o := Iterate(g, r, s, p, count); (o.count, o.pos) == Repeat(g, r, s, p, count)
    decreases |s| - p, LeftRank(g, r), r, 0, if r.max >= 0 && r.max >= count then r.max - count else 0
  {
    if !(0 <= r.max <= count) {
      SafeMeansPeg(g, r.rule, s, p);
      ChecksAreSound(g, r.rule, s, p);
      var o := Eval(g, r.rule, s, p);
      if o.ok { SafeIterationMeansPeg(g, r, s, o.pos, count + 1); }
    }
  }

  /** Restoring is not only sufficient: a rule that agrees with PEG on an input goes on agreeing
      when it is made optional, by `|` or by `-`, exactly when it did not fail after moving. */
  lemma RestoringIsNeeded(g: Grammar, r: Rule, s: string, p: nat)
    requires WellFormed(g) && Productive(g, r) && p <= |s| && Agree(g, r, s, p)
    ensures Agree(g, Or(r, NullMatch), s, p) <==> Eval(g, r, s, p).ok || Eval(g, r, s, p).pos == p
    ensures Agree(g, Maybe(r), s, p) <==> Eval(g, r, s, p).ok || Eval(g, r, s, p).pos == p
  {
    var o := Eval(g, r, s, p);
    assert !o.ok ==> Eval(g, Or(r, NullMatch), s, p).pos == Eval(g, NullMatch, s, o.pos).pos == o.pos;
    assert Iterate(g, Maybe(r), s, p, 0)
           == if o.ok then Repeats(1, o.pos, o.trace + []) else Repeats(0, o.pos, o.trace) by {
      if o.ok {
        assert Iterate(g, Maybe(r), s, o.pos, 1) == Repeats(1, o.pos, []);
      }
    }
    var q := PegParse(g, r, s, p);
    assert q.Fail? ==> PegParse(g, Or(r, NullMatch), s, p) == PegParse(g, NullMatch, s, p) == Match(p);
    assert Repeat(g, Maybe(r), s, p, 0) == if q.Match? then (1, q.pos) else (0, p) by {
      if q.Match? {
        assert Repeat(g, Maybe(r), s, q.pos, 1) == (1, q.pos);
      }
    }
  }

  /** Binding a callable to an alternative makes the choice a textbook one: unlike the bare rule,
      it gives back what it consumed, so the next alternative starts where PEG starts it. */
  lemma WrappedAlternative(g: Grammar, a: Rule, b: Rule, action: ActionId, s: string, p: nat)
    requires WellFormed(g) && Productive(g, Or(a, b)) && Productive(g, a) && Productive(g, b) && p <= |s|
    requires Agree(g, a, s, p) && Agree(g, b, s, p)
    ensures Productive(g, Or(Extractor(a, action), b)) && Agree(g, Or(Extractor(a, action), b), s, p)
    ensures var o := Eval(g, a, s, p); o.ok || o.pos == p ==> Agree(g, Or(a, b), s, p)
  {
    var x := Extractor(a, action);
    assert Productive(g, x);
    assert Eval(g, x, s, p).ok == Eval(g, a, s, p).ok && (!Eval(g, x, s, p).ok ==> Eval(g, x, s, p).pos == p);
    assert PegParse(g, x, s, p) == PegParse(g, a, s, p);
  }
}
