/** Why a static check is needed at all: run with no check on the grammar, evaluation may never
    return. `Run` is that unchecked evaluation, cut off at a depth of `fuel` nested calls. */
module Termination {
  import opened Grammars
  import opened Engine

  datatype Option<T> = None | Some(value: T)

  function Run(slots: seq<Slot>, r: Rule, s: string, p: nat, fuel: nat): (o: Option<Outcome>)
    requires p <= |s|
    ensures o.Some? ==> p <= o.value.pos <= |s|
    decreases fuel, 1
  {
    if fuel == 0 then None else
    match r
    case AnyChar => Some(if p == |s| then Outcome(false, p, []) else Outcome(true, p + 1, []))
    case End => Some(Outcome(p == |s|, p, []))
    case NullMatch => Some(Outcome(true, p, []))
    case Lookahead(text) => Some(Outcome(p + |text| < |s| && HasAt(s, p, text), p, []))
    case Char(ch) => Some(if p < |s| && s[p] == ch then Outcome(true, p + 1, []) else Outcome(false, p, []))
    case CType(c) => Some(if p < |s| && InClass(c, s[p]) then Outcome(true, p + 1, []) else Outcome(false, p, []))
    case Literal(lit) => Some(if HasAt(s, p, lit) then Outcome(true, p + |lit|, []) else Outcome(false, p, []))
    case And(a, b) =>
      var o1 := Run(slots, a, s, p, fuel - 1);
      if o1.None? || !o1.value.ok then o1 else Prepend(o1.value.trace, Run(slots, b, s, o1.value.pos, fuel - 1))
    case Or(a, b) =>
      var o1 := Run(slots, a, s, p, fuel - 1);
      if o1.None? || o1.value.ok then o1 else Prepend(o1.value.trace, Run(slots, b, s, o1.value.pos, fuel - 1))
    case Exception(a, b) =>
      var o1 := Run(slots, a, s, p, fuel - 1);
      if o1.None? then None else
      if !o1.value.ok then Some(Outcome(false, p, o1.value.trace)) else
      var o2 := Run(slots, b, s, p, fuel - 1);
      if o2.None? then None else
      Some(Outcome(!o2.value.ok, if o2.value.ok then p else o1.value.pos, o1.value.trace + o2.value.trace))
    case Iteration(_, min, _) =>
      var o := RunIterate(slots, r, s, p, 0, fuel - 1);
      if o.None? then None else
      var ok := o.value.count >= min;
      Some(Outcome(ok, if ok then o.value.pos else p, o.value.trace))
    case Not(a) =>
      var o := Run(slots, a, s, p, fuel - 1);
      if o.None? then None else Some(Outcome(!o.value.ok, p, o.value.trace))
    case Extractor(a, action) =>
      var o := Run(slots, a, s, p, fuel - 1);
      if o.None? then None else
      if o.value.ok then Some(o.value.(trace := o.value.trace + [Fired(action, p, o.value.pos)]))
      else Some(Outcome(false, p, o.value.trace))
    case Error(a, action) =>
      var o := Run(slots, a, s, p, fuel - 1);
      if o.None? || o.value.ok then o else Some(Outcome(false, p, o.value.trace + [Reported(action, p)]))
    case Ref(i) =>
      if i >= |slots| || slots[i].Unassigned? then Some(Outcome(true, p, []))
      else Run(slots, slots[i].rule, s, p, fuel - 1)
  }

  function Prepend(t: seq<Event>, o: Option<Outcome>): Option<Outcome>
  {
    if o.None? then None else Some(o.value.(trace := t + o.value.trace))
  }

  function RunIterate(slots: seq<Slot>, r: Rule, s: string, p: nat, count: nat, fuel: nat): (o: Option<Repeats>)
    requires p <= |s| && r.Iteration?
    ensures o.Some? ==> p <= o.value.pos <= |s|
    decreases fuel, 0
  {
    if fuel == 0 then None else
    if 0 <= r.max <= count then Some(Repeats(count, p, [])) else
    var o := Run(slots, r.rule, s, p, fuel - 1);
    if o.None? then None else
    if !o.value.ok then Some(Repeats(count, o.value.pos, o.value.trace)) else
    var more := RunIterate(slots, r, s, o.value.pos, count + 1, fuel - 1);
    if more.None? then None else
    Some(more.value.(trace := o.value.trace + more.value.trace))
  }

  /** An answer, once reached, is the same with any larger cut-off. */
  lemma {:induction false} MoreFuel(slots: seq<Slot>, r: Rule, s: string, p: nat, fuel: nat, more: nat)
    requires p <= |s| && fuel <= more
    requires Run(slots, r, s, p, fuel).Some?
    ensures Run(slots, r, s, p, more) == Run(slots, r, s, p, fuel)
    decreases fuel, 1
  {
    var f, m := fuel - 1, more - 1;
    match r
    case And(a, b) =>
      MoreFuel(slots, a, s, p, f, m);
      var o1 := Run(slots, a, s, p, f).value;
      if o1.ok { MoreFuel(slots, b, s, o1.pos, f, m); }
    case Or(a, b) =>
      MoreFuel(slots, a, s, p, f, m);
      var o1 := Run(slots, a, s, p, f).value;
      if !o1.ok { MoreFuel(slots, b, s, o1.pos, f, m); }
    case Exception(a, b) =>
      MoreFuel(slots, a, s, p, f, m);
      if Run(slots, a, s, p, f).value.ok { MoreFuel(slots, b, s, p, f, m); }
    case Iteration(_, _, _) => MoreFuelIterate(slots, r, s, p, 0, f, m);
    case Not(a) => MoreFuel(slots, a, s, p, f, m);
    case Extractor(a, _) => MoreFuel(slots, a, s, p, f, m);
    case Error(a, _) => MoreFuel(slots, a, s, p, f, m);
    case Ref(i) => if i < |slots| && slots[i].Assigned? { MoreFuel(slots, slots[i].rule, s, p, f, m); }
    case _ =>
  }

  lemma {:induction false} MoreFuelIterate(slots: seq<Slot>, r: Rule, s: string, p: nat, count: nat, fuel: nat,
                                           more: nat)
    requires p <= |s| && r.Iteration? && fuel <= more
    requires RunIterate(slots, r, s, p, count, fuel).Some?
    ensures RunIterate(slots, r, s, p, count, more) == RunIterate(slots, r, s, p, count, fuel)
    decreases fuel, 0
  {
    if !(0 <= r.max <= count) {
      MoreFuel(slots, r.rule, s, p, fuel - 1, more - 1);
      var o := Run(slots, r.rule, s, p, fuel - 1).value;
      if o.ok { MoreFuelIterate(slots, r, s, o.pos, count + 1, fuel - 1, more - 1); }
    }
  }

  /** One cut-off for a rule with two operands, from one for each operand that is called. */
  lemma PairReturns(g: Grammar, r: Rule, s: string, p: nat, f1: nat, f2: nat) returns (fuel: nat)
    requires WellFormed(g) && Productive(g, r) && p <= |s| && (r.And? || r.Or? || r.Exception?)
    requires Run(g.slots, r.r1, s, p, f1) == Some(Eval(g, r.r1, s, p))
    requires var o1 := Eval(g, r.r1, s, p);
             (r.Or? != o1.ok) ==>
               var q := if r.Exception? then p else o1.pos;
               Run(g.slots, r.r2, s, q, f2) == Some(Eval(g, r.r2, s, q))
    ensures Run(g.slots, r, s, p, fuel) == Some(Eval(g, r, s, p))
  {
    var o1 := Eval(g, r.r1, s, p);
    fuel := 1 + Max(f1, f2);
    MoreFuel(g.slots, r.r1, s, p, f1, fuel - 1);
    if r.Or? != o1.ok { MoreFuel(g.slots, r.r2, s, if r.Exception? then p else o1.pos, f2, fuel - 1); }
  }

  /** The rule inside one with a single operand, or in a slot. */
  function Inner(g: Grammar, r: Rule): Rule
    requires r.Not? || r.Extractor? || r.Error? || (r.Ref? && r.slot < |g.slots| && g.slots[r.slot].Assigned?)
  {
    if r.Ref? then g.slots[r.slot].rule else r.rule
  }

  lemma InnerReturns(g: Grammar, r: Rule, s: string, p: nat, f: nat)
    requires WellFormed(g) && Productive(g, r) && p <= |s|
    requires r.Not? || r.Extractor? || r.Error? || (r.Ref? && g.slots[r.slot].Assigned?)
    requires Productive(g, Inner(g, r)) && Run(g.slots, Inner(g, r), s, p, f) == Some(Eval(g, Inner(g, r), s, p))
    ensures Run(g.slots, r, s, p, f + 1) == Some(Eval(g, r, s, p))
  {
  }

  /** Every rule of a well-formed grammar returns on every input, with the outcome `Eval` gives. */
  lemma {:induction false} WellFormedReturns(g: Grammar, r: Rule, s: string, p: nat) returns (fuel: nat)
    requires WellFormed(g) && Productive(g, r) && p <= |s|
    ensures Run(g.slots, r, s, p, fuel) == Some(Eval(g, r, s, p))
    decreases |s| - p, LeftRank(g, r), r, 1, 0
  {
    fuel := 1;
    match r
    case And(a, b) =>
      var f1 := WellFormedReturns(g, a, s, p);
      var o1, f2 := Eval(g, a, s, p), 0;
      if o1.ok { f2 := WellFormedReturns(g, b, s, o1.pos); }
      fuel := PairReturns(g, r, s, p, f1, f2);
    case Or(a, b) =>
      var f1 := WellFormedReturns(g, a, s, p);
      var o1, f2 := Eval(g, a, s, p), 0;
      if !o1.ok { f2 := WellFormedReturns(g, b, s, o1.pos); }
      fuel := PairReturns(g, r, s, p, f1, f2);
    case Exception(a, b) =>
      var f1 := WellFormedReturns(g, a, s, p);
      var f2 := WellFormedReturns(g, b, s, p);
      fuel := PairReturns(g, r, s, p, f1, f2);
    case Iteration(_, _, _) =>
      var f := WellFormedIterates(g, r, s, p, 0);
      fuel := 1 + f;
    case Not(_) => fuel := WellFormedInner(g, r, s, p);
    case Extractor(_, _) => fuel := WellFormedInner(g, r, s, p);
    case Error(_, _) => fuel := WellFormedInner(g, r, s, p);
    case Ref(_) => fuel := WellFormedInner(g, r, s, p);
    case _ =>
  }

  /** A rule with a single operand, or a slot. */
  lemma {:induction false} WellFormedInner(g: Grammar, r: Rule, s: string, p: nat) returns (fuel: nat)
    requires WellFormed(g) && Productive(g, r) && p <= |s| && (r.Not? || r.Extractor? || r.Error? || r.Ref?)
    ensures Run(g.slots, r, s, p, fuel) == Some(Eval(g, r, s, p))
    decreases |s| - p, LeftRank(g, r), r, 0, 0
  {
    fuel := 1;
    if r.Ref? { assert SlotFits(g, g.slots[r.slot], g.claims[r.slot]); }
    if r.Ref? ==> g.slots[r.slot].Assigned? {
      var f := WellFormedReturns(g, Inner(g, r), s, p);
      InnerReturns(g, r, s, p, f);
      fuel := 1 + f;
    }
  }

  lemma {:induction false} WellFormedIterates(g: Grammar, r: Rule, s: string, p: nat, count: nat) returns (fuel: nat)
    requires WellFormed(g) && Productive(g, r) && r.Iteration? && p <= |s|
    ensures RunIterate(g.slots, r, s, p, count, fuel) == Some(Iterate(g, r, s, p, count))
    decreases |s| - p, LeftRank(g, r), r, 0, if r.max >= 0 && r.max >= count then r.max - count else 0
  {
    fuel := 1;
    if !(0 <= r.max <= count) {
      var f1 := WellFormedReturns(g, r.rule, s, p);
      var o := Eval(g, r.rule, s, p);
      var f2 := 0;
      if o.ok { f2 := WellFormedIterates(g, r, s, o.pos, count + 1); }
      fuel := 1 + Max(f1, f2);
      MoreFuel(g.slots, r.rule, s, p, f1, fuel - 1);
      if o.ok { MoreFuelIterate(g.slots, r, s, o.pos, count + 1, f2, fuel - 1); }
    }
  }

  /** The check is not idle: an unlimited iteration whose body succeeds in place never returns... */
  lemma {:induction false} EmptyIterationNeverReturns(slots: seq<Slot>, r: Rule, s: string, p: nat, known: nat,
                                                      count: nat, fuel: nat)
    requires p <= |s| && r.Iteration? && r.max < 0
    requires Run(slots, r.rule, s, p, known).Some?
    requires Run(slots, r.rule, s, p, known).value.ok && Run(slots, r.rule, s, p, known).value.pos == p
    ensures RunIterate(slots, r, s, p, count, fuel).None?
    ensures Run(slots, r, s, p, fuel).None?
    decreases fuel
  {
    if fuel > 0 {
      if Run(slots, r.rule, s, p, fuel - 1).Some? {
        MoreFuel(slots, r.rule, s, p, fuel - 1, if known < fuel then fuel - 1 else known);
        MoreFuel(slots, r.rule, s, p, known, if known < fuel then fuel - 1 else known);
      }
      EmptyIterationNeverReturns(slots, r, s, p, known, count + 1, fuel - 1);
      EmptyIterationNeverReturns(slots, r, s, p, known, 0, fuel - 1);
    }
  }

  /** Rule `r`, run at `p`, runs `next` at the same place before it can return: through an operand
      that comes first, or one that comes after others which left the position there, or the rule
      that a slot holds. The outcome of those others is reached with fuel `known`. */
  predicate EntersFirst(slots: seq<Slot>, r: Rule, next: Rule, s: string, p: nat, known: nat)
    requires p <= |s|
  {
    match r
    case And(a, b) => next == a || (next == b && Settles(Run(slots, a, s, p, known), true, p))
    case Or(a, b) => next == a || (next == b && Settles(Run(slots, a, s, p, known), false, p))
    case Exception(a, b) =>
      next == a || (next == b && Run(slots, a, s, p, known).Some? && Run(slots, a, s, p, known).value.ok)
    case Iteration(a, _, max) => next == a && max != 0
    case Not(a) => next == a
    case Extractor(a, _) => next == a
    case Error(a, _) => next == a
    case Ref(i) => i < |slots| && slots[i] == Assigned(next)
    case _ => false
  }

  /** In a circle of rules the k-th enters the one after it, and the last one the first. */
  predicate EntersNext(slots: seq<Slot>, circle: seq<Rule>, k: nat, s: string, p: nat, known: nat)
    requires p <= |s| && k < |circle|
  {
    EntersFirst(slots, circle[k], circle[(k + 1) % |circle|], s, p, known)
  }

  predicate Settles(o: Option<Outcome>, ok: bool, p: nat)
  {
    o.Some? && o.value.ok == ok && o.value.pos == p
  }

  /** Two answers to the same question are the same. */
  lemma SameAnswer(slots: seq<Slot>, r: Rule, s: string, p: nat, f1: nat, f2: nat)
    requires p <= |s| && Run(slots, r, s, p, f1).Some? && Run(slots, r, s, p, f2).Some?
    ensures Run(slots, r, s, p, f1) == Run(slots, r, s, p, f2)
  {
    if f1 <= f2 { MoreFuel(slots, r, s, p, f1, f2); } else { MoreFuel(slots, r, s, p, f2, f1); }
  }

  lemma EnteredFirst(slots: seq<Slot>, r: Rule, next: Rule, s: string, p: nat, known: nat, fuel: nat)
    requires p <= |s| && EntersFirst(slots, r, next, s, p, known)
    requires forall f :: 0 <= f < fuel ==> Run(slots, next, s, p, f).None?
    ensures Run(slots, r, s, p, fuel).None?
  {
    if fuel > 0 {
      match r
      case And(a, b) =>
        if next != a && Run(slots, a, s, p, fuel - 1).Some? { SameAnswer(slots, a, s, p, known, fuel - 1); }
      case Or(a, b) =>
        if next != a && Run(slots, a, s, p, fuel - 1).Some? { SameAnswer(slots, a, s, p, known, fuel - 1); }
      case Exception(a, b) =>
        if next != a && Run(slots, a, s, p, fuel - 1).Some? { SameAnswer(slots, a, s, p, known, fuel - 1); }
      case Iteration(a, _, _) => if fuel > 1 { assert Run(slots, a, s, p, fuel - 2).None?; }
      case _ =>
    }
  }

  /** ... and neither does left recursion: rules that enter one another in a circle at one place. */
  lemma {:induction false} LeftRecursionNeverReturns(slots: seq<Slot>, circle: seq<Rule>, s: string, p: nat,
                                                     known: nat, fuel: nat)
    requires p <= |s| && circle != []
    requires forall k :: 0 <= k < |circle| ==> EntersNext(slots, circle, k, s, p, known)
    ensures forall k :: 0 <= k < |circle| ==> Run(slots, circle[k], s, p, fuel).None?
    decreases fuel
  {
    forall k | 0 <= k < |circle| ensures Run(slots, circle[k], s, p, fuel).None? {
      assert EntersNext(slots, circle, k, s, p, known);
      var next := circle[(k + 1) % |circle|];
      forall f | 0 <= f < fuel ensures Run(slots, next, s, p, f).None? {
        LeftRecursionNeverReturns(slots, circle, s, p, known, f);
      }
      EnteredFirst(slots, circle[k], next, s, p, known, fuel);
    }
  }

  /** The plainest case: a slot that holds a conjunction starting with the slot itself. */
  lemma SelfStartNeverReturns(slots: seq<Slot>, i: nat, b: Rule, s: string, p: nat, fuel: nat)
    requires p <= |s| && i < |slots| && slots[i] == Assigned(And(Ref(i), b))
    ensures Run(slots, Ref(i), s, p, fuel).None?
  {
    var circle := [Ref(i), And(Ref(i), b)];
    LeftRecursionNeverReturns(slots, circle, s, p, 0, fuel);
    assert circle[0] == Ref(i);
  }
}
