/** What the actions for numbers are given: on no text anything else than a number. */
module JsonCalls {
  import opened Grammars
  import opened Engine
  import opened EngineLaws
  import opened JsonGrammar
  import opened JsonMatching
  import opened Json
  import opened Builder
  import opened JsonParse
  import opened JsonTheorems

  // ---- where they are bound ----

  lemma {:induction false} ChoiceBinds(rs: seq<Rule>, x: Rule, a: ActionId)
    requires rs != [] && forall i :: 0 <= i < |rs| ==> !BoundIn(rs[i], x, a)
    ensures !BoundIn(Choice(rs), x, a)
    decreases |rs|
  {
    if |rs| > 1 { ChoiceBinds(rs[..|rs| - 1], x, a); }
  }

  const NUMBER_WITH_MARK := And(INT_PART, Or(Or(FRAC, EXP), And(FRAC, EXP)))

  lemma And3Binds(p: Rule, q: Rule, r: Rule, x: Rule, a: ActionId)
    ensures BoundIn(And3(p, q, r), x, a) <==> BoundIn(p, x, a) || BoundIn(q, x, a) || BoundIn(r, x, a)
  {
    assert BoundIn(And(p, q), x, a) <==> BoundIn(p, x, a) || BoundIn(q, x, a);
  }

  lemma And5Binds(p: Rule, q: Rule, r: Rule, t: Rule, u: Rule, x: Rule, a: ActionId)
    requires !BoundIn(p, x, a) && !BoundIn(q, x, a) && !BoundIn(r, x, a) && !BoundIn(t, x, a)
    ensures !BoundIn(And4(p, q, r, t), x, a)
    ensures !BoundIn(u, x, a) ==> !BoundIn(And5(p, q, r, t, u), x, a)
  {
    And3Binds(p, q, r, x, a);
    assert !BoundIn(And(And3(p, q, r), t), x, a);
  }

  lemma CharBinds(c: char, action: ActionId, x: Rule, a: ActionId)
    requires action != a
    ensures !BoundIn(Extractor(Char(c), action), x, a)
  {
    assert !BoundIn(Char(c), x, a);
  }

  lemma BracketBinds(c: char, a1: ActionId, rest: Rule, d: char, a2: ActionId, x: Rule, a: ActionId)
    requires rest.Ref? && a1 != a && a2 != a
    ensures !BoundIn(And5(Extractor(Char(c), a1), WS, Maybe(rest), WS, Extractor(Char(d), a2)), x, a)
  {
    CharBinds(c, a1, x, a);
    CharBinds(d, a2, x, a);
    assert !BoundIn(Maybe(rest), x, a);
    And5Binds(Extractor(Char(c), a1), WS, Maybe(rest), WS, Extractor(Char(d), a2), x, a);
  }

  lemma QuotedBinds(action: ActionId, x: Rule, a: ActionId)
    requires action != a
    ensures !BoundIn(Quoted(action), x, a)
  {
    assert !BoundIn(CHARS, x, a);
    assert !BoundIn(Extractor(CHARS, action), x, a);
    And3Binds(Char('"'), Extractor(CHARS, action), Char('"'), x, a);
  }

  lemma TailBinds(rest: Rule, x: Rule, a: ActionId)
    requires rest.Ref?
    ensures !BoundIn(Maybe(And3(Char(','), WS, Maybe(rest))), x, a)
  {
    assert !BoundIn(Maybe(rest), x, a);
    And3Binds(Char(','), WS, Maybe(rest), x, a);
  }

  lemma ItemBinds(x: Rule, a: ActionId)
    requires a != ARRAY_ITEM
    ensures !BoundIn(And4(Extractor(Not(Char(']')), ARRAY_ITEM), VALUE, WS, MORE_ITEMS), x, a)
  {
    assert !BoundIn(Not(Char(']')), x, a);
    And5Binds(Extractor(Not(Char(']')), ARRAY_ITEM), VALUE, WS, MORE_ITEMS, WS, x, a);
  }

  lemma MemberBinds(x: Rule, a: ActionId)
    ensures !BoundIn(And(And5(IDENTIFIER, WS, Char(':'), WS, VALUE), MORE_MEMBERS), x, a)
  {
    And5Binds(IDENTIFIER, WS, Char(':'), WS, VALUE, x, a);
  }

  lemma EscapeBinds(x: Rule, a: ActionId)
    ensures !BoundIn(And(Char('\\'), Or(AnyOf(ESCAPED), And(Char('u'), HEX4))), x, a)
  {
    ChoiceBinds(seq(|ESCAPED|, k requires 0 <= k < |ESCAPED| => Char(ESCAPED[k])), x, a);
    assert !BoundIn(AnyOf(ESCAPED), x, a) && !BoundIn(And(Char('u'), HEX4), x, a);
    assert !BoundIn(Or(AnyOf(ESCAPED), And(Char('u'), HEX4)), x, a);
  }

  lemma MarkBinds(x: Rule, a: ActionId)
    ensures !BoundIn(NUMBER_WITH_MARK, x, a)
  {
    assert !BoundIn(Or(FRAC, EXP), x, a) && !BoundIn(And(FRAC, EXP), x, a);
    assert !BoundIn(Or(Or(FRAC, EXP), And(FRAC, EXP)), x, a);
  }

  lemma SignedBinds(x: Rule, a: ActionId)
    ensures !BoundIn(And(Maybe(Or(Char('+'), Char('-'))), Plus(CType(Digit))), x, a)
  {
    assert !BoundIn(Or(Char('+'), Char('-')), x, a);
    assert !BoundIn(Maybe(Or(Char('+'), Char('-'))), x, a) && !BoundIn(Plus(CType(Digit)), x, a);
  }

  lemma RunsBind(c: char, x: Rule, a: ActionId)
    ensures !BoundIn(Star(CType(Space)), x, a) && !BoundIn(Iteration(CType(XDigit), 4, 4), x, a)
    ensures !BoundIn(And(Char(c), Star(CType(Digit))), x, a) && !BoundIn(Star(Or(PLAIN, ESCAPE)), x, a)
    ensures !BoundIn(Exception(Exception(AnyChar, Char('"')), Char('\\')), x, a)
  {
    assert !BoundIn(Star(CType(Digit)), x, a) && !BoundIn(Or(PLAIN, ESCAPE), x, a);
    assert !BoundIn(Exception(AnyChar, Char('"')), x, a);
  }

  lemma WordsBind(x: Rule, a: ActionId)
    requires a != NULL_VALUE && a != TRUE_VALUE && a != FALSE_VALUE
    ensures !BoundIn(Extractor(Literal("null"), NULL_VALUE), x, a)
    ensures !BoundIn(Or(Extractor(Literal("true"), TRUE_VALUE), Extractor(Literal("false"), FALSE_VALUE)), x, a)
  {
    assert !BoundIn(Extractor(Literal("true"), TRUE_VALUE), x, a);
    assert !BoundIn(Extractor(Literal("false"), FALSE_VALUE), x, a);
  }

  predicate OfContainer(i: nat)
  {
    i == ITEM.slot || i == MEMBER.slot || i == MORE_ITEMS.slot || i == MORE_MEMBERS.slot
  }

  lemma ContainerRules(i: nat, x: Rule, a: ActionId)
    requires OfContainer(i) && (a == INT_VALUE || a == DOUBLE_VALUE)
    ensures !BoundIn(Body(i), x, a)
  {
    if i == ITEM.slot { ItemBinds(x, a); }
    else if i == MEMBER.slot { MemberBinds(x, a); }
    else { TailBinds(if i == MORE_ITEMS.slot then ITEM else MEMBER, x, a); }
  }

  lemma StringRules(i: nat, x: Rule, a: ActionId)
    requires (i == V_STRING.slot || i == IDENTIFIER.slot) && (a == INT_VALUE || a == DOUBLE_VALUE)
    ensures !BoundIn(Body(i), x, a)
  {
    QuotedBinds(if i == V_STRING.slot then STRING_VALUE else OBJ_ITEM, x, a);
  }

  lemma ArrayRule(x: Rule, a: ActionId)
    requires a == INT_VALUE || a == DOUBLE_VALUE
    ensures !BoundIn(Body(V_ARRAY.slot), x, a)
  {
    BracketBinds('[', ARRAY_BEGIN, ITEM, ']', ARRAY_END, x, a);
  }

  lemma ObjectRule(x: Rule, a: ActionId)
    requires a == INT_VALUE || a == DOUBLE_VALUE
    ensures !BoundIn(Body(V_OBJECT.slot), x, a)
  {
    BracketBinds('{', OBJ_BEGIN, MEMBER, '}', OBJ_END, x, a);
  }

  predicate OfNumber(i: nat)
  {
    i == INT_PART.slot || i == FRAC.slot || i == EXP.slot
  }

  lemma DigitRules(i: nat, x: Rule, a: ActionId)
    requires OfNumber(i)
    ensures !BoundIn(Body(i), x, a)
  {
    if i == INT_PART.slot { SignedBinds(x, a); } else { RunsBind(if i == FRAC.slot then '.' else 'e', x, a); }
  }

  lemma PieceRules(i: nat, x: Rule, a: ActionId)
    requires i == WS.slot || i == PLAIN.slot || i == CHARS.slot || i == HEX4.slot
    ensures !BoundIn(Body(i), x, a)
  {
    RunsBind('.', x, a);
  }

  lemma WordRules(i: nat, x: Rule, a: ActionId)
    requires (i == V_NULL.slot || i == V_BOOL.slot) && (a == INT_VALUE || a == DOUBLE_VALUE)
    ensures !BoundIn(Body(i), x, a)
  {
    WordsBind(x, a);
  }

  lemma WholeRules(x: Rule, a: ActionId)
    ensures !BoundIn(Body(VALUE.slot), x, a) && !BoundIn(Body(DOCUMENT.slot), x, a)
  {
    ChoiceBinds(VALUES, x, a);
    And3Binds(WS, VALUE, WS, x, a);
  }

  /** The slots that bind none of the number actions. */
  lemma OtherRules(i: nat, x: Rule, a: ActionId)
    requires i < SLOTS && i != V_INT.slot && i != V_DOUBLE.slot && (a == INT_VALUE || a == DOUBLE_VALUE)
    ensures !BoundIn(Body(i), x, a)
  {
    if i == VALUE.slot || i == DOCUMENT.slot { WholeRules(x, a); }
    else if i == ESCAPE.slot { EscapeBinds(x, a); }
    else if OfContainer(i) { ContainerRules(i, x, a); }
    else if i == V_STRING.slot || i == IDENTIFIER.slot { StringRules(i, x, a); }
    else if i == V_ARRAY.slot { ArrayRule(x, a); }
    else if i == V_OBJECT.slot { ObjectRule(x, a); }
    else if i == V_NULL.slot || i == V_BOOL.slot { WordRules(i, x, a); }
    else if OfNumber(i) { DigitRules(i, x, a); }
    else { PieceRules(i, x, a); }
  }

  /** The number actions are bound in one place each. */
  lemma NumberRules(i: nat, x: Rule, a: ActionId)
    requires i < SLOTS && (a == INT_VALUE || a == DOUBLE_VALUE) && BoundIn(Body(i), x, a)
    ensures x == if a == INT_VALUE then INT_PART else NUMBER_WITH_MARK
  {
    if i == V_INT.slot {
      assert Body(i) == Extractor(INT_PART, INT_VALUE);
    } else if i == V_DOUBLE.slot {
      assert Body(i) == Extractor(NUMBER_WITH_MARK, DOUBLE_VALUE);
      MarkBinds(x, a);
    } else {
      OtherRules(i, x, a);
    }
  }

  // ---- what they are given ----

  predicate IsNumberCall(e: Engine.Event) { e.Fired? && (e.action == INT_VALUE || e.action == DOUBLE_VALUE) }

  /** A number starts with digits, after a sign perhaps; an integer is nothing else. */
  ghost predicate NumberAt(s: string, e: Engine.Event)
    requires e.Fired?
  {
    && e.from <= |s|
    && var d := SignEnd(s, e.from);
       var q := RunEnd(Digit, s, d);
       d < q <= e.to <= |s| && (e.action == INT_VALUE ==> q == e.to)
  }

  lemma NumbersAreGiven(g: Grammar, s: string, p: nat, e: Engine.Event)
    requires Ready(g) && p <= |s| && e in Eval(g, DOCUMENT, s, p).trace && IsNumberCall(e)
    ensures NumberAt(s, e)
  {
    RangesMatch(g, DOCUMENT, s, p);
    var x :| Bound(g, DOCUMENT, x, e.action) && Runnable(g, x, s, e.from)
      && Eval(g, x, s, e.from).ok && Eval(g, x, s, e.from).pos == e.to;
    var i :| 0 <= i < |g.slots| && g.slots[i].Assigned? && BoundIn(g.slots[i].rule, x, e.action);
    NumberRules(i, x, e.action);
    IntPartRuns(g, s, e.from);
    if e.action == DOUBLE_VALUE { AndRuns(g, INT_PART, Or(Or(FRAC, EXP), And(FRAC, EXP)), s, e.from); }
  }

  lemma {:induction false} RunIsDigits(s: string, p: nat, i: nat)
    requires p <= |s| && p <= i < RunEnd(Digit, s, p)
    ensures i < |s| && IsDigit(s[i])
    decreases i - p
  {
    if p < i { RunIsDigits(s, p + 1, i); }
  }

  /** `stoi` and `stod` take it for a number. */
  ghost predicate SoundNumber(e: Builder.Event)
  {
    && (e.IntValue? ==> Stoi(e.digits) != Bad(NotANumber))
    && (e.DoubleValue? ==> Stod(e.digits) != Failed(NotANumber))
  }

  lemma NumberIsSound(s: string, e: Engine.Event)
    requires IsNumberCall(e) ==> NumberAt(s, e)
    ensures SoundNumber(Action(s, e))
  {
    if IsNumberCall(e) {
      var text := Slice(s, e.from, e.to);
      var ds := DigitsOf(s, e, text);
      if e.action == INT_VALUE { StoiTakes(text, ds); } else { StodTakes(text, ds); }
    }
  }

  lemma DigitsOf(s: string, e: Engine.Event, text: string) returns (ds: string)
    requires IsNumberCall(e) && NumberAt(s, e) && text == Slice(s, e.from, e.to)
    ensures ds == Unsigned(text) && ds != "" && IsDigit(ds[0])
    ensures e.action == INT_VALUE ==> forall k :: 0 <= k < |ds| ==> IsDigit(ds[k])
  {
    var d := SignEnd(s, e.from);
    ds := s[d..e.to];
    assert text == s[e.from..e.to] && ds == Unsigned(text);
    RunIsDigits(s, d, d);
    if e.action == INT_VALUE {
      forall k | 0 <= k < |ds| ensures IsDigit(ds[k]) { RunIsDigits(s, d, d + k); }
    }
  }

  lemma StoiTakes(text: string, ds: string)
    requires ds == Unsigned(text) && ds != "" && forall k :: 0 <= k < |ds| ==> IsDigit(ds[k])
    ensures Stoi(text) != Bad(NotANumber)
  {
  }

  lemma StodTakes(text: string, ds: string)
    requires ds == Unsigned(text) && ds != "" && IsDigit(ds[0])
    ensures Stod(text) != Failed(NotANumber)
  {
  }

  lemma {:induction false} SoundReplay(b: Build, s: string, trace: seq<Engine.Event>)
    requires Reaches(b.root, b.path) && forall e :: e in trace ==> SoundNumber(Action(s, e))
    ensures Replay(b, Actions(s, trace)) != Thrown(NotANumber)
    decreases trace
  {
    if trace != [] {
      var es := Actions(s, trace);
      assert es[0] == Action(s, trace[0]) && es[1..] == Actions(s, trace[1..]);
      ApplyReaches(b, es[0]);
      assert trace[0] in trace && forall e :: e in trace[1..] ==> e in trace;
      if Apply(b, es[0]).Built? { SoundReplay(Apply(b, es[0]).build, s, trace[1..]); }
    }
  }

  /** On no text is a number action given what `stoi` or `stod` would not take for a number. */
  lemma NumbersAreNumbers(s: string, p: nat)
    requires p <= |s|
    ensures Parse(s, p).0 != Threw(NotANumber)
  {
    var g := ParseIs(s, p);
    var trace := Eval(g, DOCUMENT, s, p).trace;
    forall e | e in trace ensures SoundNumber(Action(s, e)) {
      if IsNumberCall(e) { NumbersAreGiven(g, s, p, e); }
      NumberIsSound(s, e);
    }
    SoundReplay(Start(), s, trace);
  }
}
