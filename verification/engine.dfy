/** Evaluation of a rule, as the call operators of include/gcm/parser do it: the position is
    passed by reference and is NOT put back when a rule fails, except where the code says so. */
module Engine {
  import opened Grammars

  /** A callable bound to a rule was called: an extractor with the range it matched, or the
      error callback with the position where the rule had started. */
  datatype Event = Fired(action: ActionId, from: nat, to: nat) | Reported(action: ActionId, at: nat)

  /** The verdict, where the caller's `begin` is left, and the callables called, in order. They
      are called when they are reached and never taken back. */
  datatype Outcome = Outcome(ok: bool, pos: nat, trace: seq<Event>)

  predicate HasAt(s: string, p: nat, lit: string)
    requires p <= |s|
  {
    p + |lit| <= |s| && s[p..p + |lit|] == lit
  }

  /** Total for every well-formed grammar: a call either has less input left, or stays at the
      same place and moves down in (left rank, size of the rule). */
  function Eval(g: Grammar, r: Rule, s: string, p: nat): (o: Outcome)
    requires WellFormed(g) && Productive(g, r)
    requires p <= |s|
    ensures p <= o.pos <= |s|
    ensures o.ok && o.pos == p ==> Nullable(g, r)
    decreases |s| - p, LeftRank(g, r), r, 1, 0
  {
    match r
    case AnyChar => if p == |s| then Outcome(false, p, []) else Outcome(true, p + 1, [])
    case End => Outcome(p == |s|, p, [])
    case NullMatch => Outcome(true, p, [])
    case Lookahead(text) => Outcome(p + |text| < |s| && HasAt(s, p, text), p, [])
    case Char(ch) => if p < |s| && s[p] == ch then Outcome(true, p + 1, []) else Outcome(false, p, [])
    case CType(c) => if p < |s| && InClass(c, s[p]) then Outcome(true, p + 1, []) else Outcome(false, p, [])
    case Literal(lit) => if HasAt(s, p, lit) then Outcome(true, p + |lit|, []) else Outcome(false, p, [])
    case And(a, b) =>
      var o1 := Eval(g, a, s, p);
      if !o1.ok then o1 else
      var o2 := Eval(g, b, s, o1.pos);
      Outcome(o2.ok, o2.pos, o1.trace + o2.trace)
    case Or(a, b) =>
      var o1 := Eval(g, a, s, p);
      if o1.ok then o1 else
      var o2 := Eval(g, b, s, o1.pos);
      Outcome(o2.ok, o2.pos, o1.trace + o2.trace)
    case Exception(a, b) =>
      var o1 := Eval(g, a, s, p);
      if !o1.ok then Outcome(false, p, o1.trace) else
      var o2 := Eval(g, b, s, p);
      if o2.ok then Outcome(false, p, o1.trace + o2.trace) else Outcome(true, o1.pos, o1.trace + o2.trace)
    case Iteration(_, min, _) =>
      var o := Iterate(g, r, s, p, 0);
      if o.count >= min then Outcome(true, o.pos, o.trace) else Outcome(false, p, o.trace)
    case Not(a) =>
      var o := Eval(g, a, s, p);
      Outcome(!o.ok, p, o.trace)
    case Extractor(a, action) =>
      var o := Eval(g, a, s, p);
      if o.ok then Outcome(true, o.pos, o.trace + [Fired(action, p, o.pos)]) else Outcome(false, p, o.trace)
    case Error(a, action) =>
      var o := Eval(g, a, s, p);
      if o.ok then o else Outcome(false, p, o.trace + [Reported(action, p)])
    case Ref(i) =>
      assert SlotFits(g, g.slots[i], g.claims[i]);
      match g.slots[i]
      case Unassigned => Outcome(true, p, [])
      case Assigned(body) => Eval(g, body, s, p)
  }

  /** How often an iteration's body succeeded, and where its copy of the position ends up: a
      body that fails after moving leaves it moved. */
  datatype Repeats = Repeats(count: nat, pos: nat, trace: seq<Event>)

  function Iterate(g: Grammar, r: Rule, s: string, p: nat, count: nat): (o: Repeats)
    requires WellFormed(g) && Productive(g, r) && r.Iteration?
    requires p <= |s|
    ensures p <= o.pos <= |s|
    ensures count <= o.count
    ensures o.count > count && o.pos == p ==> Nullable(g, r.rule)
    decreases |s| - p, LeftRank(g, r), r, 0, if r.max >= 0 && r.max >= count then r.max - count else 0
  {
    if 0 <= r.max <= count then Repeats(count, p, []) else
    var o := Eval(g, r.rule, s, p);
    if !o.ok then Repeats(count, o.pos, o.trace) else
    var more := Iterate(g, r, s, o.pos, count + 1);
    Repeats(more.count, more.pos, o.trace + more.trace)
  }

  /** Where the caller's `begin` is when the k-th callable is called, and stays if that throws: a
      conjunction, an alternative and a slot pass `begin` on, every other rule works on a copy. */
  function HeldAt(g: Grammar, r: Rule, s: string, p: nat, k: nat): (q: nat)
    requires WellFormed(g) && Productive(g, r)
    requires p <= |s|
    ensures p <= q <= |s|
    decreases |s| - p, LeftRank(g, r), r
  {
    match r
    case And(a, b) =>
      var o := Eval(g, a, s, p);
      if !o.ok || k < |o.trace| then HeldAt(g, a, s, p, k) else HeldAt(g, b, s, o.pos, k - |o.trace|)
    case Or(a, b) =>
      var o := Eval(g, a, s, p);
      if o.ok || k < |o.trace| then HeldAt(g, a, s, p, k) else HeldAt(g, b, s, o.pos, k - |o.trace|)
    case Ref(i) =>
      assert SlotFits(g, g.slots[i], g.claims[i]);
      (match g.slots[i]
       case Unassigned => p
       case Assigned(body) => HeldAt(g, body, s, p, k))
    case _ => p
  }

  /** The engine as the program runs it: positions are copied and committed, loops count, and the
      callables are called in place. */
  class Matcher {
    const g: Grammar
    const text: string
    var trace: seq<Event>

    constructor (g: Grammar, text: string)
      ensures this.g == g && this.text == text && trace == []
    {
      this.g := g;
      this.text := text;
      trace := [];
    }

    method Match(r: Rule, begin: nat) returns (ok: bool, end: nat)
      requires WellFormed(g) && Productive(g, r)
      requires begin <= |text|
      modifies this
      ensures var o := Eval(g, r, text, begin); ok == o.ok && end == o.pos && trace == old(trace) + o.trace
      decreases |text| - begin, LeftRank(g, r), r, 1
    {
      end := begin;
      match r {
        case AnyChar =>
          ok := begin != |text|;
          end := if ok then begin + 1 else begin;
        case End => ok := begin == |text|;
        case NullMatch => ok := true;
        case Lookahead(t) => ok := begin + |t| < |text| && text[begin..begin + |t|] == t;
        case Char(ch) =>
          ok := begin != |text| && text[begin] == ch;
          end := if ok then begin + 1 else begin;
        case CType(c) =>
          ok := begin != |text| && InClass(c, text[begin]);
          end := if ok then begin + 1 else begin;
        case Literal(lit) => ok, end := MatchLiteral(lit, begin);
        case And(a, b) =>
          ok, end := Match(a, begin);
          if ok {
            ok, end := Match(b, end);
          }
        case Or(a, b) =>
          ok, end := Match(a, begin);
          if !ok {
            ok, end := Match(b, end);
          }
        case Exception(_, _) => ok, end := MatchException(r, begin);
        case Iteration(_, _, _) => ok, end := MatchIteration(r, begin);
        case Not(a) =>
          var found, _ := Match(a, begin);
          ok := !found;
        case Extractor(_, _) => ok, end := MatchBound(r, begin);
        case Error(_, _) => ok, end := MatchBound(r, begin);
        case Ref(i) =>
          ok := true;
          assert SlotFits(g, g.slots[i], g.claims[i]);
          if g.slots[i].Assigned? {
            ok, end := Match(g.slots[i].rule, begin);
          }
      }
    }

    method MatchException(r: Rule, begin: nat) returns (ok: bool, end: nat)
      requires WellFormed(g) && Productive(g, r) && r.Exception?
      requires begin <= |text|
      modifies this
      ensures var o := Eval(g, r, text, begin); ok == o.ok && end == o.pos && trace == old(trace) + o.trace
      decreases |text| - begin, LeftRank(g, r), r, 0
    {
      var begin1;
      ok, begin1 := Match(r.r1, begin);
      if ok {
        var excluded, _ := Match(r.r2, begin);
        ok := !excluded;
      }
      end := if ok then begin1 else begin;
    }

    /** A rule with a callable bound to it: `rule >> extractor` or `rule / error`. */
    method MatchBound(r: Rule, begin: nat) returns (ok: bool, end: nat)
      requires WellFormed(g) && Productive(g, r) && (r.Extractor? || r.Error?)
      requires begin <= |text|
      modifies this
      ensures var o := Eval(g, r, text, begin); ok == o.ok && end == o.pos && trace == old(trace) + o.trace
      decreases |text| - begin, LeftRank(g, r), r, 0
    {
      var begin1;
      ok, begin1 := Match(r.rule, begin);
      end := if ok then begin1 else begin;
      if ok && r.Extractor? {
        trace := trace + [Fired(r.action, begin, begin1)];
      } else if !ok && r.Error? {
        trace := trace + [Reported(r.action, begin)];
      }
    }

    method MatchLiteral(lit: string, begin: nat) returns (ok: bool, end: nat)
      requires begin <= |text|
      ensures ok == HasAt(text, begin, lit) && end == if ok then begin + |lit| else begin
    {
      var begin1 := begin;
      for i := 0 to |lit|
        invariant begin1 == begin + i <= |text|
        invariant text[begin..begin1] == lit[..i]
      {
        if begin1 == |text| {
          return false, begin;
        }
        if text[begin1] != lit[i] {
          assert text[begin..][i] != lit[i];
          return false, begin;
        }
        begin1 := begin1 + 1;
      }
      return true, begin1;
    }

    method MatchIteration(r: Rule, begin: nat) returns (ok: bool, end: nat)
      requires WellFormed(g) && Productive(g, r) && r.Iteration?
      requires begin <= |text|
      modifies this
      ensures var o := Eval(g, r, text, begin); ok == o.ok && end == o.pos && trace == old(trace) + o.trace
      decreases |text| - begin, LeftRank(g, r), r, 0
    {
      var count, begin1, going := 0, begin, true;
      ghost var whole := Iterate(g, r, text, begin, 0);
      while going && (r.max < 0 || count < r.max)
        invariant begin <= begin1 <= |text| && 0 <= count
        invariant count > 0 && begin1 == begin ==> Nullable(g, r.rule)
        invariant going ==> var rest := Iterate(g, r, text, begin1, count);
                            whole.count == rest.count && whole.pos == rest.pos &&
                            old(trace) + whole.trace == trace + rest.trace
        invariant !going ==> whole.count == count && whole.pos == begin1 && old(trace) + whole.trace == trace
        decreases going, |text| - begin1, r.max - count
      {
        ghost var o := Eval(g, r.rule, text, begin1);
        going, begin1 := Match(r.rule, begin1);
        if going {
          count := count + 1;
        }
      }
      ok := count >= r.min;
      end := if ok then begin1 else begin;
    }
  }
}
