/** Where the JSON grammar stops being a parsing expression grammar. */
module JsonPeg {
  import opened Grammars
  import opened Engine
  import opened EngineLaws
  import opened Peg
  import opened JsonGrammar
  import opened JsonMatching
  import Json
  import opened JsonParse
  import opened JsonRoundTrip
  import opened JsonTheorems
  import opened JsonReader

  /** The parts said to restore do, and the parts said never to fail do not. */
  lemma JsonClaimsHold(g: Grammar)
    requires Ready(g)
    ensures ClaimsHold(g)
  {
    forall i | 0 <= i < SLOTS
      ensures RestoresOnFailure(i) ==> Restores(g, Body(i))
      ensures ClaimOf(i).infallible ==> Infallible(g, Body(i))
    {
      assert Restores(g, Extractor(Literal("true"), TRUE_VALUE))
        && Restores(g, Extractor(Literal("false"), FALSE_VALUE));
    }
  }

  lemma {:induction false} ChoiceCanFail(g: Grammar, rs: seq<Rule>)
    requires rs != [] && forall r :: r in rs ==> !Infallible(g, r)
    ensures !Infallible(g, Choice(rs))
  {
    if |rs| > 1 { ChoiceCanFail(g, rs[..|rs| - 1]); assert rs[|rs| - 1] in rs; }
  }

  /** A string literal does not restore, and it stands to the left of `|`. */
  lemma JsonIsNotSafe(g: Grammar)
    requires Ready(g)
    ensures !Safe(g, Body(VALUE.slot)) && !SafeGrammar(g)
  {
    ValueBodyIs();
    var first := Choice([V_NULL, V_BOOL, V_DOUBLE, V_INT]);
    ChoiceCanFail(g, [V_NULL, V_BOOL, V_DOUBLE, V_INT]);
    assert !Infallible(g, V_STRING) && !Restores(g, V_STRING);
    assert !Infallible(g, Or(first, V_STRING));
    assert !Restores(g, Or(first, V_STRING));
    assert !Safe(g, Or(Or(first, V_STRING), V_ARRAY));
    assert g.slots[VALUE.slot].Assigned?;
  }

  // ---- the textbook meaning of the parts, for every text ----

  lemma PegPart(g: Grammar, r: Rule, s: string, p: nat)
    requires Ready(g) && p <= |s| && r.Ref? && r.slot < SLOTS
    ensures Productive(g, Body(r.slot)) && PegParse(g, r, s, p) == PegParse(g, Body(r.slot), s, p)
  {
    assert SlotFits(g, g.slots[r.slot], g.claims[r.slot]);
  }

  lemma PegOr(g: Grammar, a: Rule, b: Rule, s: string, p: nat)
    requires Runnable(g, Or(a, b), s, p)
    ensures Productive(g, a) && Productive(g, b)
    ensures PegParse(g, Or(a, b), s, p)
            == if PegParse(g, a, s, p).Match? then PegParse(g, a, s, p) else PegParse(g, b, s, p)
  {
  }

  /** What a conjunction does after its first part. */
  function After(g: Grammar, r: Rule, s: string, o: PegResult): PegResult
    requires WellFormed(g) && Productive(g, r) && (o.Match? ==> o.pos <= |s|)
  {
    if o.Fail? then Fail else PegParse(g, r, s, o.pos)
  }

  lemma PegAnd(g: Grammar, a: Rule, b: Rule, s: string, p: nat)
    requires Runnable(g, And(a, b), s, p)
    ensures Productive(g, a) && Productive(g, b)
    ensures PegParse(g, And(a, b), s, p) == After(g, b, s, PegParse(g, a, s, p))
  {
  }

  lemma PegAnd3(g: Grammar, a: Rule, b: Rule, c: Rule, s: string, p: nat)
    requires Runnable(g, And3(a, b, c), s, p)
    ensures Productive(g, a) && Productive(g, b) && Productive(g, c)
    ensures PegParse(g, And3(a, b, c), s, p) == After(g, c, s, After(g, b, s, PegParse(g, a, s, p)))
  {
    PegAnd(g, And(a, b), c, s, p);
    PegAnd(g, a, b, s, p);
  }

  lemma PegAnd5(g: Grammar, a: Rule, b: Rule, c: Rule, d: Rule, e: Rule, s: string, p: nat)
    requires Runnable(g, And5(a, b, c, d, e), s, p)
    ensures Productive(g, a) && Productive(g, b) && Productive(g, c) && Productive(g, d) && Productive(g, e)
    ensures PegParse(g, And5(a, b, c, d, e), s, p)
            == After(g, e, s, After(g, d, s, After(g, c, s, After(g, b, s, PegParse(g, a, s, p)))))
  {
    PegAnd(g, And4(a, b, c, d), e, s, p);
    PegAnd(g, And3(a, b, c), d, s, p);
    PegAnd3(g, a, b, c, s, p);
  }

  lemma PegFired(g: Grammar, a: Rule, action: ActionId, s: string, p: nat)
    requires Runnable(g, Extractor(a, action), s, p)
    ensures Productive(g, a) && PegParse(g, Extractor(a, action), s, p) == PegParse(g, a, s, p)
  {
  }

  lemma PegMaybe(g: Grammar, a: Rule, s: string, p: nat)
    requires Runnable(g, Maybe(a), s, p)
    ensures Productive(g, a)
    ensures var o := PegParse(g, a, s, p); PegParse(g, Maybe(a), s, p) == if o.Match? then o else Match(p)
  {
    var o := PegParse(g, a, s, p);
    if o.Match? { assert Repeat(g, Maybe(a), s, o.pos, 1) == (1, o.pos); }
    assert Repeat(g, Maybe(a), s, p, 0) == if o.Match? then (1, o.pos) else (0, p);
  }

  lemma {:induction false} PegClassRepeats(g: Grammar, c: CharClass, min: int, s: string, p: nat, count: nat)
    requires Runnable(g, Iteration(CType(c), min, -1), s, p)
    ensures Repeat(g, Iteration(CType(c), min, -1), s, p, count) == (count + RunEnd(c, s, p) - p, RunEnd(c, s, p))
    decreases |s| - p
  {
    if p < |s| && InClass(c, s[p]) { PegClassRepeats(g, c, min, s, p + 1, count + 1); }
  }

  lemma PegWs(g: Grammar, s: string, p: nat)
    requires Ready(g) && p <= |s|
    ensures PegParse(g, WS, s, p) == Match(RunEnd(Space, s, p))
  {
    PegPart(g, WS, s, p);
    PegClassRepeats(g, Space, 0, s, p, 0);
  }

  lemma {:induction false} PegAnyOf(g: Grammar, cs: string, s: string, p: nat)
    requires Ready(g) && cs != "" && p <= |s|
    ensures Productive(g, AnyOf(cs))
    ensures PegParse(g, AnyOf(cs), s, p) == if p < |s| && s[p] in cs then Match(p + 1) else Fail
  {
    AnyOfConsumes(g, cs);
    if |cs| > 1 {
      var n := |cs| - 1;
      var rs := seq(|cs|, i requires 0 <= i < |cs| => Char(cs[i]));
      assert rs[..n] == seq(n, i requires 0 <= i < n => Char(cs[..n][i]));
      PegAnyOf(g, cs[..n], s, p);
      assert cs == cs[..n] + [cs[n]];
    }
  }

  lemma {:induction false} PegHexRepeats(g: Grammar, s: string, p: nat, n: nat)
    requires Ready(g) && p <= |s| && n <= 4 && Productive(g, Iteration(CType(XDigit), 4, 4))
    ensures var o := Repeat(g, Iteration(CType(XDigit), 4, 4), s, p, n);
      && (o.0 >= 4 <==> p + 4 - n <= |s| && forall i :: p <= i < p + 4 - n ==> InClass(XDigit, s[i]))
      && (o.0 >= 4 ==> o.1 == p + 4 - n)
    decreases 4 - n
  {
    if n < 4 && p < |s| && InClass(XDigit, s[p]) { PegHexRepeats(g, s, p + 1, n + 1); }
  }

  lemma PegHex4(g: Grammar, s: string, p: nat)
    requires Ready(g) && p <= |s|
    ensures PegParse(g, HEX4, s, p) == if FourHex(s, p) then Match(p + 4) else Fail
  {
    PegPart(g, HEX4, s, p);
    PegHexRepeats(g, s, p, 0);
  }

  lemma PegPlain(g: Grammar, s: string, p: nat)
    requires Ready(g) && p <= |s|
    ensures PegParse(g, PLAIN, s, p) == if p < |s| && s[p] != '"' && s[p] != '\\' then Match(p + 1) else Fail
  {
    PegPart(g, PLAIN, s, p);
    var x := Exception(AnyChar, Char('"'));
    assert Productive(g, x);
    assert PegParse(g, x, s, p) == if p < |s| && s[p] != '"' then Match(p + 1) else Fail;
  }

  lemma PegUnicode(g: Grammar, s: string, p: nat)
    requires Ready(g) && p <= |s| && Productive(g, And(Char('u'), HEX4))
    ensures PegParse(g, And(Char('u'), HEX4), s, p)
            == if p < |s| && s[p] == 'u' && FourHex(s, p + 1) then Match(p + 5) else Fail
  {
    if p < |s| && s[p] == 'u' {
      assert PegParse(g, Char('u'), s, p) == Match(p + 1);
      PegHex4(g, s, p + 1);
    }
  }

  /** In PEG a broken escape is no escape, and nothing of it is consumed. */
  lemma PegEscape(g: Grammar, s: string, p: nat)
    requires Ready(g) && p <= |s|
    ensures PegParse(g, ESCAPE, s, p) ==
            if p == |s| || s[p] != '\\' then Fail
            else if p + 1 < |s| && s[p + 1] in ESCAPED then Match(p + 2)
            else if p + 1 < |s| && s[p + 1] == 'u' && FourHex(s, p + 2) then Match(p + 6)
            else Fail
  {
    PegPart(g, ESCAPE, s, p);
    var u := And(Char('u'), HEX4);
    var rest := Or(AnyOf(ESCAPED), u);
    assert Productive(g, rest) && Productive(g, u);
    if p < |s| && s[p] == '\\' {
      assert PegParse(g, Char('\\'), s, p) == Match(p + 1);
      PegAnyOf(g, ESCAPED, s, p + 1);
      PegUnicode(g, s, p + 1);
      assert PegParse(g, And(Char('\\'), rest), s, p) == PegParse(g, rest, s, p + 1);
    }
  }

  lemma PegChar(g: Grammar, s: string, p: nat)
    requires Ready(g) && p <= |s| && Productive(g, Or(PLAIN, ESCAPE))
    ensures PegParse(g, Or(PLAIN, ESCAPE), s, p) == if CharStep(s, p).ok then Match(CharStep(s, p).pos) else Fail
  {
    PegPlain(g, s, p);
    PegEscape(g, s, p);
  }

  lemma {:induction false} PegCharsRepeat(g: Grammar, s: string, p: nat, count: nat)
    requires Ready(g) && p <= |s| && Productive(g, Star(Or(PLAIN, ESCAPE)))
    ensures Repeat(g, Star(Or(PLAIN, ESCAPE)), s, p, count).1 == CharsEnd(s, p)
    decreases |s| - p
  {
    PegChar(g, s, p);
    var o := CharStep(s, p);
    if o.ok { PegCharsRepeat(g, s, o.pos, count + 1); }
  }

  /** In PEG a run of characters ends after its last complete one. */
  lemma PegChars(g: Grammar, s: string, p: nat)
    requires Ready(g) && p <= |s|
    ensures PegParse(g, CHARS, s, p) == Match(CharsEnd(s, p))
  {
    PegPart(g, CHARS, s, p);
    PegCharsRepeat(g, s, p, 0);
    assert Repeat(g, Star(Or(PLAIN, ESCAPE)), s, p, 0).0 >= 0;
  }

  /** The textbook verdict that goes with a reading. */
  function Verdict(r: Reading): PegResult
  {
    if r.o.ok && !r.strays then Match(r.o.pos) else Fail
  }

  lemma PegQuoted(g: Grammar, action: ActionId, s: string, p: nat)
    requires Ready(g) && p <= |s| && Productive(g, Quoted(action))
    ensures PegParse(g, Quoted(action), s, p)
            == if p < |s| && s[p] == '"' then Verdict(QuotedRun(s, p, action)) else Fail
  {
    PegAnd3(g, Char('"'), Extractor(CHARS, action), Char('"'), s, p);
    if p < |s| && s[p] == '"' {
      PegFired(g, CHARS, action, s, p + 1);
      PegChars(g, s, p + 1);
      PegVerdict(s, p, action);
    }
  }

  lemma PegVerdict(s: string, p: nat, action: ActionId)
    requires p < |s|
    ensures var e := CharsEnd(s, p + 1);
      Verdict(QuotedRun(s, p, action)) == if e < |s| && s[e] == '"' then Match(e + 1) else Fail
  {
    CharsStopAtQuote(s, p + 1);
  }

  /** A quote ends the run of characters in both readings. */
  lemma CharsStopAtQuote(s: string, p: nat)
    requires p <= |s|
    ensures var e := CharsEnd(s, p); e < |s| && s[e] == '"' ==> Scan(s, p) == e
  {
  }

  lemma PegString(g: Grammar, s: string, p: nat)
    requires Ready(g) && p <= |s|
    ensures PegParse(g, V_STRING, s, p)
            == if p < |s| && s[p] == '"' then Verdict(QuotedRun(s, p, STRING_VALUE)) else Fail
  {
    PegPart(g, V_STRING, s, p);
    PegQuoted(g, STRING_VALUE, s, p);
  }

  lemma PegKey(g: Grammar, s: string, p: nat)
    requires Ready(g) && p <= |s|
    ensures PegParse(g, IDENTIFIER, s, p)
            == if p < |s| && s[p] == '"' then Verdict(QuotedRun(s, p, OBJ_ITEM)) else Fail
  {
    PegPart(g, IDENTIFIER, s, p);
    PegQuoted(g, OBJ_ITEM, s, p);
  }

  // ---- words and numbers ----

  function Taken(o: Outcome): PegResult { if o.ok then Match(o.pos) else Fail }

  lemma PegWords(g: Grammar, s: string, p: nat)
    requires Ready(g) && p <= |s|
    ensures PegParse(g, V_NULL, s, p) == Taken(Word(s, p, "null", NULL_VALUE))
    ensures var t, f := Word(s, p, "true", TRUE_VALUE), Word(s, p, "false", FALSE_VALUE);
      PegParse(g, V_BOOL, s, p) == if t.ok then Taken(t) else Taken(f)
  {
    PegPart(g, V_NULL, s, p);
    PegPart(g, V_BOOL, s, p);
    assert PegParse(g, Extractor(Literal("true"), TRUE_VALUE), s, p) == Taken(Word(s, p, "true", TRUE_VALUE));
    assert PegParse(g, Extractor(Literal("false"), FALSE_VALUE), s, p) == Taken(Word(s, p, "false", FALSE_VALUE));
  }

  lemma PegIntPart(g: Grammar, s: string, p: nat)
    requires Ready(g) && p <= |s|
    ensures var d := SignEnd(s, p); var q := RunEnd(Digit, s, d);
      PegParse(g, INT_PART, s, p) == if q > d then Match(q) else Fail
  {
    PegPart(g, INT_PART, s, p);
    var sign := Or(Char('+'), Char('-'));
    assert Productive(g, Maybe(sign)) && Productive(g, Plus(CType(Digit)));
    PegMaybe(g, sign, s, p);
    assert PegParse(g, Maybe(sign), s, p) == Match(SignEnd(s, p));
    PegClassRepeats(g, Digit, 1, s, SignEnd(s, p), 0);
  }

  lemma PegFraction(g: Grammar, s: string, q: nat)
    requires Ready(g) && q <= |s|
    ensures PegParse(g, FRAC, s, q) == if q < |s| && s[q] == '.' then Match(RunEnd(Digit, s, q + 1)) else Fail
    ensures PegParse(g, EXP, s, q) == if q < |s| && s[q] == 'e' then Match(RunEnd(Digit, s, q + 1)) else Fail
  {
    PegPart(g, FRAC, s, q);
    PegPart(g, EXP, s, q);
    if q < |s| { PegClassRepeats(g, Digit, 0, s, q + 1, 0); }
  }

  lemma PegMark(g: Grammar, s: string, q: nat)
    requires Ready(g) && q <= |s|
    ensures var tail := Or(Or(FRAC, EXP), And(FRAC, EXP));
      && Productive(g, tail)
      && PegParse(g, tail, s, q)
         == if q < |s| && (s[q] == '.' || s[q] == 'e') then Match(RunEnd(Digit, s, q + 1)) else Fail
  {
    var frac, both := Or(FRAC, EXP), And(FRAC, EXP);
    assert Productive(g, frac) && Productive(g, both);
    PegFraction(g, s, q);
    PegOr(g, frac, both, s, q);
    PegOr(g, FRAC, EXP, s, q);
    PegAnd(g, FRAC, EXP, s, q);
  }

  lemma PegDouble(g: Grammar, s: string, p: nat)
    requires Ready(g) && p <= |s|
    ensures var d := SignEnd(s, p); var q := RunEnd(Digit, s, d);
      PegParse(g, V_DOUBLE, s, p)
      == if q > d && q < |s| && (s[q] == '.' || s[q] == 'e') then Match(RunEnd(Digit, s, q + 1)) else Fail
  {
    var tail := Or(Or(FRAC, EXP), And(FRAC, EXP));
    PegPart(g, V_DOUBLE, s, p);
    assert PegParse(g, V_DOUBLE, s, p) == After(g, tail, s, PegParse(g, INT_PART, s, p)) by {
      PegFired(g, And(INT_PART, tail), DOUBLE_VALUE, s, p);
      PegAnd(g, INT_PART, tail, s, p);
    }
    PegIntPart(g, s, p);
    PegMark(g, s, RunEnd(Digit, s, SignEnd(s, p)));
  }

  lemma PegInt(g: Grammar, s: string, p: nat)
    requires Ready(g) && p <= |s|
    ensures PegParse(g, V_INT, s, p) == PegParse(g, INT_PART, s, p)
  {
    PegPart(g, V_INT, s, p);
    PegFired(g, INT_PART, INT_VALUE, s, p);
  }

  lemma PegNumbers(g: Grammar, s: string, p: nat)
    requires Ready(g) && p <= |s|
    ensures var d := PegParse(g, V_DOUBLE, s, p);
      Taken(NumberRun(s, p)) == if d.Match? then d else PegParse(g, V_INT, s, p)
  {
    PegDouble(g, s, p);
    PegInt(g, s, p);
    PegIntPart(g, s, p);
  }

  lemma PegPlains(g: Grammar, s: string, p: nat)
    requires Ready(g) && p <= |s| && Productive(g, Or(Or(Or(V_NULL, V_BOOL), V_DOUBLE), V_INT))
    ensures PegParse(g, Or(Or(Or(V_NULL, V_BOOL), V_DOUBLE), V_INT), s, p) == Taken(Plain(s, p))
  {
    PegOr(g, Or(Or(V_NULL, V_BOOL), V_DOUBLE), V_INT, s, p);
    PegOr(g, Or(V_NULL, V_BOOL), V_DOUBLE, s, p);
    PegOr(g, V_NULL, V_BOOL, s, p);
    PegWords(g, s, p);
    PegNumbers(g, s, p);
    WordsMiss(s, p);
  }

  // ---- arrays and objects ----

  /** A bracketed rule whose optional inner part ends at `y`. */
  lemma PegClosed(g: Grammar, c: char, a1: ActionId, rest: Rule, d: char, a2: ActionId, s: string, p: nat, y: nat)
    requires Ready(g) && p < |s| && s[p] == c && y <= |s|
    requires Productive(g, And5(Extractor(Char(c), a1), WS, Maybe(rest), WS, Extractor(Char(d), a2)))
    requires Productive(g, Maybe(rest)) && PegParse(g, Maybe(rest), s, RunEnd(Space, s, p + 1)) == Match(y)
    ensures var w := RunEnd(Space, s, y);
      PegParse(g, And5(Extractor(Char(c), a1), WS, Maybe(rest), WS, Extractor(Char(d), a2)), s, p)
      == if w < |s| && s[w] == d then Match(w + 1) else Fail
  {
    var open, close := Extractor(Char(c), a1), Extractor(Char(d), a2);
    PegAnd5(g, open, WS, Maybe(rest), WS, close, s, p);
    PegFired(g, Char(c), a1, s, p);
    PegWs(g, s, p + 1);
    PegWs(g, s, y);
    PegFired(g, Char(d), a2, s, RunEnd(Space, s, y));
  }

  lemma PegUnopened(g: Grammar, c: char, a1: ActionId, b: Rule, d: Rule, e: Rule, s: string, p: nat)
    requires Ready(g) && p <= |s| && (p < |s| ==> s[p] != c)
    requires Productive(g, And5(Extractor(Char(c), a1), WS, b, d, e))
    ensures PegParse(g, And5(Extractor(Char(c), a1), WS, b, d, e), s, p) == Fail
  {
    PegAnd5(g, Extractor(Char(c), a1), WS, b, d, e, s, p);
    PegFired(g, Char(c), a1, s, p);
  }

  lemma PegTail(g: Grammar, rest: Rule, s: string, q: nat)
    requires Ready(g) && q <= |s|
    requires Productive(g, Maybe(And3(Char(','), WS, Maybe(rest)))) && Productive(g, Maybe(rest))
    ensures PegParse(g, Maybe(And3(Char(','), WS, Maybe(rest))), s, q)
            == if q < |s| && s[q] == ',' then PegParse(g, Maybe(rest), s, RunEnd(Space, s, q + 1)) else Match(q)
  {
    PegMaybe(g, And3(Char(','), WS, Maybe(rest)), s, q);
    PegAnd3(g, Char(','), WS, Maybe(rest), s, q);
    if q < |s| && s[q] == ',' {
      PegWs(g, s, q + 1);
      PegMaybe(g, rest, s, RunEnd(Space, s, q + 1));
    }
  }

  lemma PegLook(g: Grammar, s: string, q: nat)
    requires Ready(g) && q <= |s|
    ensures Productive(g, Extractor(Not(Char(']')), ARRAY_ITEM))
    ensures PegParse(g, Extractor(Not(Char(']')), ARRAY_ITEM), s, q)
            == if q < |s| && s[q] == ']' then Fail else Match(q)
  {
    assert Productive(g, Char(']')) && Productive(g, Not(Char(']')));
    PegFired(g, Not(Char(']')), ARRAY_ITEM, s, q);
    assert PegParse(g, Char(']'), s, q).Match? <==> q < |s| && s[q] == ']';
  }

  /** The part of an item before the rest of the list. */
  lemma PegItem(g: Grammar, s: string, q: nat)
    requires Ready(g) && q <= |s| && Productive(g, And3(Extractor(Not(Char(']')), ARRAY_ITEM), VALUE, WS))
    ensures PegParse(g, And3(Extractor(Not(Char(']')), ARRAY_ITEM), VALUE, WS), s, q) ==
            if q < |s| && s[q] == ']' then Fail else
            var v := PegParse(g, VALUE, s, q);
            if v.Fail? then Fail else Match(RunEnd(Space, s, v.pos))
  {
    PegAnd3(g, Extractor(Not(Char(']')), ARRAY_ITEM), VALUE, WS, s, q);
    PegLook(g, s, q);
    var v := PegParse(g, VALUE, s, q);
    if v.Match? { PegWs(g, s, v.pos); }
  }

  lemma PegHeadRuns(g: Grammar, name: Rule, colon: Rule, value: Rule, s: string, q: nat)
    requires Ready(g) && q <= |s| && Productive(g, And5(name, WS, colon, WS, value)) && Productive(g, colon)
    requires Productive(g, name) && PegParse(g, name, s, q).Match? ==>
      var c := RunEnd(Space, s, PegParse(g, name, s, q).pos);
      PegParse(g, colon, s, c) == if c < |s| && s[c] == ':' then Match(c + 1) else Fail
    ensures Productive(g, name) && Productive(g, value)
    ensures var key := PegParse(g, name, s, q);
      PegParse(g, And5(name, WS, colon, WS, value), s, q) ==
        if key.Fail? then Fail else
        var c := RunEnd(Space, s, key.pos);
        if c < |s| && s[c] == ':' then PegParse(g, value, s, RunEnd(Space, s, c + 1)) else Fail
  {
    PegAnd5(g, name, WS, colon, WS, value, s, q);
    var key := PegParse(g, name, s, q);
    if key.Match? {
      var c := RunEnd(Space, s, key.pos);
      PegWs(g, s, key.pos);
      if c < |s| && s[c] == ':' { PegWs(g, s, c + 1); }
    }
  }

  /** The part of a member before the rest of the list. */
  /** Where the value of a member starts, after its key and a colon; negative when there is none. */
  function AfterColon(s: string, key: PegResult): (b: int)
    ensures b >= 0 ==> key.Match? && key.pos < b <= |s|
  {
    if key.Fail? || key.pos > |s| then -1 else
    var c := RunEnd(Space, s, key.pos);
    if c < |s| && s[c] == ':' then RunEnd(Space, s, c + 1) else -1
  }

  lemma PegHead(g: Grammar, s: string, q: nat)
    requires Ready(g) && q <= |s| && Productive(g, And5(IDENTIFIER, WS, Char(':'), WS, VALUE))
    ensures var b := AfterColon(s, PegParse(g, IDENTIFIER, s, q));
      PegParse(g, And5(IDENTIFIER, WS, Char(':'), WS, VALUE), s, q) == if b < 0 then Fail else PegParse(g, VALUE, s, b)
  {
    PegHeadRuns(g, IDENTIFIER, Char(':'), VALUE, s, q);
  }

  lemma PegMore(g: Grammar, part: Rule, head: Rule, tail: Rule, s: string, w: nat)
    requires Ready(g) && w <= |s| && IsList(part, head, tail)
    ensures Productive(g, tail) && Productive(g, Maybe(part))
    ensures PegParse(g, tail, s, w)
            == if w < |s| && s[w] == ',' then PegParse(g, Maybe(part), s, Next(s, w)) else Match(w)
  {
    ListParts(part, head, tail);
    PegPart(g, tail, s, w);
    TailParts(g, part);
    PegTail(g, part, s, w);
  }

  lemma PegElement(g: Grammar, part: Rule, head: Rule, tail: Rule, s: string, q: nat)
    requires Ready(g) && q <= |s| && IsList(part, head, tail)
    ensures Productive(g, head) && Productive(g, tail) && Productive(g, part)
    ensures PegParse(g, part, s, q) == After(g, tail, s, PegParse(g, head, s, q))
  {
    ListParts(part, head, tail);
    PegPart(g, part, s, q);
    PegAnd(g, head, tail, s, q);
  }

  lemma PegNeverFails(g: Grammar, a: Rule, s: string, p: nat)
    requires Runnable(g, Maybe(a), s, p)
    ensures PegParse(g, Maybe(a), s, p).Match?
  {
    PegMaybe(g, a, s, p);
  }

  lemma PegList(g: Grammar, part: Rule, head: Rule, tail: Rule, s: string, q: nat)
    requires Ready(g) && q <= |s| && IsList(part, head, tail)
    ensures Productive(g, head) && Productive(g, Maybe(part))
    ensures var h := PegParse(g, head, s, q);
      PegParse(g, Maybe(part), s, q) ==
        if h.Fail? then Match(q)
        else if h.pos < |s| && s[h.pos] == ',' then PegParse(g, Maybe(part), s, Next(s, h.pos))
        else Match(h.pos)
  {
    PegMore(g, part, head, tail, s, q);
    PegElement(g, part, head, tail, s, q);
    PegMaybe(g, part, s, q);
    var h := PegParse(g, head, s, q);
    if h.Match? {
      PegMore(g, part, head, tail, s, h.pos);
      PegNeverFails(g, part, s, Next(s, h.pos));
    }
  }

  lemma PegValueSplits(g: Grammar, s: string, p: nat)
    requires Ready(g) && p <= |s|
    ensures var t := PegParse(g, V_STRING, s, p);
      var a := PegParse(g, V_ARRAY, s, p);
      PegParse(g, VALUE, s, p)
      == if Plain(s, p).ok then Taken(Plain(s, p)) else if t.Match? then t else if a.Match? then a
         else PegParse(g, V_OBJECT, s, p)
  {
    PegPart(g, VALUE, s, p);
    ValueBodyIs();
    PlainChoice();
    var first := Or(Or(Or(V_NULL, V_BOOL), V_DOUBLE), V_INT);
    PegOr(g, Or(Or(first, V_STRING), V_ARRAY), V_OBJECT, s, p);
    PegOr(g, Or(first, V_STRING), V_ARRAY, s, p);
    PegOr(g, first, V_STRING, s, p);
    PegPlains(g, s, p);
  }

  /** Reading without straying is an ordered choice. */
  lemma VerdictSplits(s: string, p: nat)
    requires p <= |s|
    ensures var t := if p < |s| && s[p] == '"' then Verdict(QuotedRun(s, p, STRING_VALUE)) else Fail;
      var a := Verdict(ReadArray(s, p));
      Verdict(ReadValue(s, p))
      == if Plain(s, p).ok then Taken(Plain(s, p)) else if t.Match? then t else if a.Match? then a
         else Verdict(ReadObject(s, p))
  {
  }

  /** In PEG a value is what the reader reads without straying. */
  lemma {:induction false} PegValueIs(g: Grammar, s: string, p: nat)
    requires Ready(g) && p <= |s|
    ensures PegParse(g, VALUE, s, p) == Verdict(ReadValue(s, p))
    decreases |s| - p, 1
  {
    PegValueSplits(g, s, p);
    PegString(g, s, p);
    PegArrayIs(g, s, p);
    PegObjectIs(g, s, p);
    VerdictSplits(s, p);
  }

  lemma {:induction false} PegArrayIs(g: Grammar, s: string, p: nat)
    requires Ready(g) && p <= |s|
    ensures PegParse(g, V_ARRAY, s, p) == Verdict(ReadArray(s, p))
    decreases |s| - p, 0
  {
    PegPart(g, V_ARRAY, s, p);
    if p == |s| || s[p] != '[' {
      PegUnopened(g, '[', ARRAY_BEGIN, Maybe(ITEM), WS, Extractor(Char(']'), ARRAY_END), s, p);
    } else {
      var q := RunEnd(Space, s, p + 1);
      RunEndStops(Space, s, p + 1);
      var y := PegItemsEnd(g, s, q);
      PegClosed(g, '[', ARRAY_BEGIN, ITEM, ']', ARRAY_END, s, p, y);
    }
  }

  lemma {:induction false} PegObjectIs(g: Grammar, s: string, p: nat)
    requires Ready(g) && p <= |s|
    ensures PegParse(g, V_OBJECT, s, p) == Verdict(ReadObject(s, p))
    decreases |s| - p, 0
  {
    PegPart(g, V_OBJECT, s, p);
    if p == |s| || s[p] != '{' {
      PegUnopened(g, '{', OBJ_BEGIN, Maybe(MEMBER), WS, Extractor(Char('}'), OBJ_END), s, p);
    } else {
      var q := RunEnd(Space, s, p + 1);
      var y := PegMembersEnd(g, s, q);
      PegClosed(g, '{', OBJ_BEGIN, MEMBER, '}', OBJ_END, s, p, y);
    }
  }

  lemma {:induction false} RunEndStops(c: CharClass, s: string, p: nat)
    requires p <= |s|
    ensures var q := RunEnd(c, s, p); q < |s| ==> !InClass(c, s[q])
    decreases |s| - p
  {
    if p < |s| && InClass(c, s[p]) { RunEndStops(c, s, p + 1); }
  }

  /** What stands, after white space, where the optional part of a bracket has ended. */
  predicate Closes(s: string, y: nat, d: char)
    requires y <= |s|
  {
    var w := RunEnd(Space, s, y); w < |s| && s[w] == d
  }

  /** Reading an item without straying. */
  lemma ItemVerdict(s: string, q: nat)
    requires q <= |s|
    ensures var v := Verdict(ReadValue(s, q));
      Verdict(ReadItem(s, q)) == if (q < |s| && s[q] == ']') || v.Fail? then Fail else Match(RunEnd(Space, s, v.pos))
  {
  }

  lemma {:induction false} PegItemIs(g: Grammar, s: string, q: nat)
    requires Ready(g) && q <= |s| && Productive(g, And3(Extractor(Not(Char(']')), ARRAY_ITEM), VALUE, WS))
    ensures PegParse(g, And3(Extractor(Not(Char(']')), ARRAY_ITEM), VALUE, WS), s, q) == Verdict(ReadItem(s, q))
    decreases |s| - q, 2
  {
    PegItem(g, s, q);
    PegValueIs(g, s, q);
    ItemVerdict(s, q);
  }

  /** Reading a member without straying: key and colon, and then the value. */
  lemma KeyedVerdict(s: string, q: nat, key: Reading)
    requires q < |s| && s[q] == '"' && key == QuotedRun(s, q, OBJ_ITEM)
    ensures Verdict(key).Fail? ==> Verdict(ReadMember(s, q)).Fail?
    ensures Verdict(key).Match? ==>
      var c := RunEnd(Space, s, key.o.pos);
      if c < |s| && s[c] == ':' then Verdict(ReadMember(s, q)) == Verdict(ReadValue(s, RunEnd(Space, s, c + 1)))
      else Verdict(ReadMember(s, q)).Fail?
  {
    var c := RunEnd(Space, s, key.o.pos);
    if key.o.ok && c < |s| && s[c] == ':' {
      var v := ReadValue(s, RunEnd(Space, s, c + 1));
      assert ReadMember(s, q) == Reading(Then(key.o, v.o), key.strays || v.strays);
    }
  }

  lemma MemberVerdict(s: string, q: nat, key: PegResult)
    requires q <= |s| && key == if q < |s| && s[q] == '"' then Verdict(QuotedRun(s, q, OBJ_ITEM)) else Fail
    ensures key.Match? ==> q < key.pos <= |s|
    ensures var b := AfterColon(s, key); Verdict(ReadMember(s, q)) == if b < 0 then Fail else Verdict(ReadValue(s, b))
  {
    if q < |s| && s[q] == '"' { KeyedVerdict(s, q, QuotedRun(s, q, OBJ_ITEM)); }
  }

  lemma {:induction false} PegMemberIs(g: Grammar, s: string, q: nat)
    requires Ready(g) && q <= |s| && Productive(g, And5(IDENTIFIER, WS, Char(':'), WS, VALUE))
    ensures PegParse(g, And5(IDENTIFIER, WS, Char(':'), WS, VALUE), s, q) == Verdict(ReadMember(s, q))
    decreases |s| - q, 2
  {
    var key := PegParse(g, IDENTIFIER, s, q);
    PegKey(g, s, q);
    MemberVerdict(s, q, key);
    PegHead(g, s, q);
    var b := AfterColon(s, key);
    if b >= 0 { PegValueIs(g, s, b); }
  }

  lemma ItemsVerdict(s: string, q: nat)
    requires q <= |s|
    ensures var h, r := Verdict(ReadItem(s, q)), ReadItems(s, q);
      if h.Fail? then r.strays || r.o.pos == q
      else if h.pos < |s| && s[h.pos] == ',' then
        var rest := ReadItems(s, Next(s, h.pos)); r.strays == rest.strays && r.o.pos == rest.o.pos
      else !r.strays && r.o.pos == h.pos
  {
  }

  lemma MembersVerdict(s: string, q: nat)
    requires q <= |s|
    ensures var h, r := Verdict(ReadMember(s, q)), ReadMembers(s, q);
      if h.Fail? then r.strays || r.o.pos == q
      else if h.pos < |s| && s[h.pos] == ',' then
        var rest := ReadMembers(s, Next(s, h.pos)); r.strays == rest.strays && r.o.pos == rest.o.pos
      else !r.strays && r.o.pos == h.pos
  {
  }

  lemma NoItemAt(s: string, q: nat)
    requires q < |s| && s[q] == ']'
    ensures ReadItems(s, q) == Clean(Yes(q))
  {
  }

  lemma NoMemberAt(s: string, q: nat)
    requires q <= |s| && (q < |s| ==> s[q] != '"')
    ensures ReadMembers(s, q) == Clean(Yes(q))
  {
  }

  /** When the reader strays in its first item, that is not for a closing bracket. */
  lemma NoWholeItem(s: string, q: nat)
    requires q <= |s| && (q < |s| ==> !InClass(Space, s[q])) && Verdict(ReadItem(s, q)).Fail?
    ensures if ReadItems(s, q).strays then !Closes(s, q, ']') else ReadItems(s, q).o.pos == q
  {
    assert RunEnd(Space, s, q) == q;
    if q < |s| && s[q] == ']' { NoItemAt(s, q); } else { ItemsVerdict(s, q); }
  }

  /** How the optional part of a list goes on after its first element. */
  ghost predicate PegGoesOn(g: Grammar, part: Rule, s: string, q: nat, h: PegResult)
    requires Ready(g) && q <= |s| && Productive(g, Maybe(part)) && (h.Match? ==> h.pos <= |s|)
  {
    PegParse(g, Maybe(part), s, q) ==
      if h.Fail? then Match(q)
      else if h.pos < |s| && s[h.pos] == ',' then PegParse(g, Maybe(part), s, Next(s, h.pos))
      else Match(h.pos)
  }

  lemma {:induction false} PegItemsGoOn(g: Grammar, s: string, q: nat)
    requires Ready(g) && q <= |s|
    ensures Productive(g, Maybe(ITEM)) && PegGoesOn(g, ITEM, s, q, Verdict(ReadItem(s, q)))
    decreases |s| - q, 3
  {
    PegList(g, ITEM, And3(Extractor(Not(Char(']')), ARRAY_ITEM), VALUE, WS), MORE_ITEMS, s, q);
    PegItemIs(g, s, q);
  }

  lemma {:induction false} PegMembersGoOn(g: Grammar, s: string, q: nat)
    requires Ready(g) && q <= |s|
    ensures Productive(g, Maybe(MEMBER)) && PegGoesOn(g, MEMBER, s, q, Verdict(ReadMember(s, q)))
    decreases |s| - q, 3
  {
    PegList(g, MEMBER, And5(IDENTIFIER, WS, Char(':'), WS, VALUE), MORE_MEMBERS, s, q);
    PegMemberIs(g, s, q);
  }

  /** The optional items end where the reader ends when it does not stray; when it does, PEG has
      stopped before something that is no closing bracket. */
  lemma {:induction false} PegItemsEnd(g: Grammar, s: string, q: nat) returns (y: nat)
    requires Ready(g) && q <= |s| && (q < |s| ==> !InClass(Space, s[q]))
    ensures q <= y <= |s| && Productive(g, Maybe(ITEM)) && PegParse(g, Maybe(ITEM), s, q) == Match(y)
    ensures if ReadItems(s, q).strays then !Closes(s, y, ']') else y == ReadItems(s, q).o.pos
    decreases |s| - q, 4
  {
    PegItemsGoOn(g, s, q);
    var h := Verdict(ReadItem(s, q));
    if h.Fail? {
      y := q;
      NoWholeItem(s, q);
    } else {
      y := h.pos;
      ItemsVerdict(s, q);
      if y < |s| && s[y] == ',' {
        RunEndStops(Space, s, y + 1);
        y := PegItemsEnd(g, s, Next(s, y));
      }
    }
  }

  lemma {:induction false} PegMembersEnd(g: Grammar, s: string, q: nat) returns (y: nat)
    requires Ready(g) && q <= |s|
    ensures q <= y <= |s| && Productive(g, Maybe(MEMBER)) && PegParse(g, Maybe(MEMBER), s, q) == Match(y)
    ensures if ReadMembers(s, q).strays then !Closes(s, y, '}') else y == ReadMembers(s, q).o.pos
    decreases |s| - q, 4
  {
    PegMembersGoOn(g, s, q);
    MembersVerdict(s, q);
    var h := Verdict(ReadMember(s, q));
    if h.Fail? {
      y := q;
      if q == |s| || s[q] != '"' { NoMemberAt(s, q); } else { assert RunEnd(Space, s, q) == q; }
    } else {
      y := h.pos;
      if y < |s| && s[y] == ',' { y := PegMembersEnd(g, s, Next(s, y)); }
    }
  }

  // ---- where the two agree ----

  /** A string literal: they agree unless the run of complete characters is followed by a bare `\\u`
      and a quote. */
  lemma StringAgrees(g: Grammar, s: string, p: nat)
    requires Ready(g) && p <= |s|
    ensures Agree(g, V_STRING, s, p)
            <==> !(p < |s| && s[p] == '"' && HasAt(s, CharsEnd(s, p + 1), "\\u\""))
  {
    StringIs(g, s, p);
    PegString(g, s, p);
    if p < |s| && s[p] == '"' { StrayStrings(s, p, STRING_VALUE); }
  }

  lemma StrayStrings(s: string, p: nat, action: ActionId)
    requires p < |s|
    ensures var r := QuotedRun(s, p, action);
      r.o.ok && r.strays <==> HasAt(s, CharsEnd(s, p + 1), "\\u\"")
  {
    var e := CharsEnd(s, p + 1);
    StubAt(s, e);
    assert '"' in ESCAPED by { assert ESCAPED[0] == '"'; }
  }

  lemma StubAt(s: string, e: nat)
    requires e <= |s|
    ensures HasAt(s, e, "\\u\"") <==> e + 3 <= |s| && s[e] == '\\' && s[e + 1] == 'u' && s[e + 2] == '"'
  {
    if e + 3 <= |s| {
      assert s[e..e + 3] == [s[e], s[e + 1], s[e + 2]];
      assert "\\u\"" == ['\\', 'u', '"'];
    }
  }

  /** A value, an array, an object and a whole document: they agree unless the engine accepts
      having strayed. */
  lemma ValueAgrees(g: Grammar, s: string, p: nat)
    requires Ready(g) && p <= |s|
    ensures Agree(g, VALUE, s, p) <==> !(ReadValue(s, p).o.ok && ReadValue(s, p).strays)
    ensures Agree(g, V_ARRAY, s, p) <==> !(ReadArray(s, p).o.ok && ReadArray(s, p).strays)
    ensures Agree(g, V_OBJECT, s, p) <==> !(ReadObject(s, p).o.ok && ReadObject(s, p).strays)
  {
    ValueIs(g, s, p);
    PegValueIs(g, s, p);
    ArrayIs(g, s, p);
    PegArrayIs(g, s, p);
    ObjectIs(g, s, p);
    PegObjectIs(g, s, p);
  }

  lemma DocumentIs(g: Grammar, s: string, p: nat)
    requires Ready(g) && p <= |s|
    ensures var r := ReadValue(s, RunEnd(Space, s, p)).o;
      var o := Eval(g, DOCUMENT, s, p);
      o.ok == r.ok && (o.ok ==> o.pos == RunEnd(Space, s, r.pos))
  {
    DocumentRuns(g, s, p);
    ValueIs(g, s, RunEnd(Space, s, p));
  }

  lemma PegDocumentIs(g: Grammar, s: string, p: nat)
    requires Ready(g) && p <= |s|
    ensures var v := Verdict(ReadValue(s, RunEnd(Space, s, p)));
      PegParse(g, DOCUMENT, s, p) == if v.Fail? then Fail else Match(RunEnd(Space, s, v.pos))
  {
    var q := RunEnd(Space, s, p);
    PegPart(g, DOCUMENT, s, p);
    PegAnd3(g, WS, VALUE, WS, s, p);
    PegWs(g, s, p);
    PegValueIs(g, s, q);
    PegWs(g, s, ReadValue(s, q).o.pos);
  }

  lemma DocumentAgrees(g: Grammar, s: string, p: nat)
    requires Ready(g) && p <= |s|
    ensures var r := ReadValue(s, RunEnd(Space, s, p));
      Agree(g, DOCUMENT, s, p) <==> !(r.o.ok && r.strays)
  {
    DocumentIs(g, s, p);
    PegDocumentIs(g, s, p);
  }

  // ---- texts that only the engine accepts ----

  /** Accepted as a whole by the engine, and by the textbook reading not at all. */
  ghost predicate OnlyEngine(g: Grammar, t: string)
    requires Ready(g)
  {
    Eval(g, DOCUMENT, t, 0).ok && Eval(g, DOCUMENT, t, 0).pos == |t| && PegParse(g, DOCUMENT, t, 0) == Fail
  }

  lemma StrayDocument(g: Grammar, t: string)
    requires Ready(g) && t != "" && !InClass(Space, t[0])
    requires var r := ReadValue(t, 0); r.o.ok && r.strays && r.o.pos == |t|
    ensures OnlyEngine(g, t)
  {
    assert RunEnd(Space, t, 0) == 0;
    DocumentIs(g, t, 0);
    PegDocumentIs(g, t, 0);
  }

  /** A string literal that consists of a bare `\\u`. */
  lemma StubStrays(t: string)
    requires t == ['"', '\\', 'u', '"']
    ensures var r := ReadValue(t, 0); r.o.ok && r.strays && r.o.pos == |t|
  {
    assert CharsEnd(t, 1) == 1;
    StubAt(t, 1);
    StrayStrings(t, 0, STRING_VALUE);
    assert Scan(t, 1) == 3;
  }

  /** An array accepts an item that has failed after moving, if that stopped before a closing
      bracket. */
  lemma StrayItem(s: string, p: nat, q: nat, w: nat)
    requires p < |s| && s[p] == '[' && q == RunEnd(Space, s, p + 1) && q < |s| && s[q] != ']'
    requires var v := ReadValue(s, q).o; !v.ok && v.pos != q && w == RunEnd(Space, s, v.pos)
    requires w < |s| && s[w] == ']'
    ensures var r := ReadValue(s, p); r.o.ok && r.strays && r.o.pos == w + 1
  {
    var items := ReadItems(s, q);
    assert items == Ended(q, ReadItem(s, q));
    assert ReadArray(s, p) == Closed(s, p, ARRAY_BEGIN, items, ']', ARRAY_END);
  }

  /** And an object accepts a member whose value has failed, if that stopped before a closing
      bracket. */
  lemma StrayMember(s: string, p: nat, q: nat, b: nat, w: nat)
    requires p < |s| && s[p] == '{' && q == RunEnd(Space, s, p + 1) && q < |s| && b == ValueStart(s, q) && b != q
    requires !ReadValue(s, b).o.ok && w == RunEnd(Space, s, ReadValue(s, b).o.pos)
    requires w < |s| && s[w] == '}'
    ensures var r := ReadValue(s, p); r.o.ok && r.strays && r.o.pos == w + 1
  {
    var members := ReadMembers(s, q);
    assert !ReadMember(s, q).o.ok && ReadMember(s, q).o.pos == ReadValue(s, b).o.pos;
    assert members == Ended(q, ReadMember(s, q));
    assert ReadObject(s, p) == Closed(s, p, OBJ_BEGIN, members, '}', OBJ_END);
    assert ReadValue(s, p) == ReadObject(s, p);
  }

  lemma OpenObject(s: string, p: nat, q: nat)
    requires p < |s| && s[p] == '{' && q == RunEnd(Space, s, p + 1) && q < |s| && s[q] == ']'
    ensures var v := ReadValue(s, p).o; !v.ok && v.pos == q
  {
    assert RunEnd(Space, s, q) == q;
    NoMemberAt(s, q);
    assert ReadObject(s, p) == Closed(s, p, OBJ_BEGIN, ReadMembers(s, q), '}', OBJ_END);
    assert ReadValue(s, p) == ReadObject(s, p);
  }

  lemma OpenArray(s: string, p: nat, q: nat)
    requires p < |s| && s[p] == '[' && q == RunEnd(Space, s, p + 1) && q < |s| && s[q] == '}'
    ensures var v := ReadValue(s, p).o; !v.ok && v.pos == q
  {
    assert RunEnd(Space, s, q) == q;
    assert ReadValue(s, q).o == No(q);
    assert ReadItems(s, q) == Ended(q, ReadItem(s, q));
    assert ReadArray(s, p) == Closed(s, p, ARRAY_BEGIN, ReadItems(s, q), ']', ARRAY_END);
    assert ReadObject(s, q) == Clean(No(q));
  }

  lemma OpenString(s: string, p: nat, q: nat)
    requires p < |s| && s[p] == '"' && q == Scan(s, p + 1) && q < |s| && s[q] == ']'
    ensures var v := ReadValue(s, p).o; !v.ok && v.pos == q
  {
    assert ReadArray(s, q) == Clean(No(q)) && ReadObject(s, q) == Clean(No(q));
  }

  lemma OpenObjectStrays(t: string)
    requires t == ['[', '{', ']']
    ensures var r := ReadValue(t, 0); r.o.ok && r.strays && r.o.pos == |t|
  {
    assert RunEnd(Space, t, 1) == 1 && RunEnd(Space, t, 2) == 2;
    OpenObject(t, 1, 2);
    StrayItem(t, 0, 1, 2);
  }

  lemma OpenArrayStrays(t: string)
    requires t == ['{', '"', 'a', '"', ':', '[', '}']
    ensures var r := ReadValue(t, 0); r.o.ok && r.strays && r.o.pos == |t|
  {
    assert RunEnd(Space, t, 1) == 1 && RunEnd(Space, t, 4) == 4 && RunEnd(Space, t, 5) == 5 && RunEnd(Space, t, 6) == 6;
    OpenArray(t, 5, 6);
    assert Scan(t, 2) == 3 by { assert Scan(t, 3) == 3; }
    StrayMember(t, 0, 1, 5, 6);
  }

  lemma OpenStringStrays(t: string)
    requires t == ['[', '"', '\\', ']']
    ensures var r := ReadValue(t, 0); r.o.ok && r.strays && r.o.pos == |t|
  {
    assert RunEnd(Space, t, 1) == 1 && RunEnd(Space, t, 3) == 3;
    assert Scan(t, 2) == 3 by { NotEscaped(t[3]); }
    OpenString(t, 1, 3);
    StrayItem(t, 0, 1, 3);
  }

  lemma NotEscaped(ch: char)
    requires ch == ']'
    ensures ch !in ESCAPED
  {
  }

  /** Four texts that the code accepts and RFC 8259 does not: a literal with a bare `\\u`, and
      arrays and objects with an inner bracket or string that is never closed. */
  lemma EngineAndPegDiffer(g: Grammar)
    requires Ready(g)
    ensures OnlyEngine(g, "\"\\u\"") && OnlyEngine(g, "[{]") && OnlyEngine(g, "{\"a\":[}") && OnlyEngine(g, "[\"\\]")
  {
    StubStrays("\"\\u\"");
    StrayDocument(g, "\"\\u\"");
    OpenObjectStrays("[{]");
    StrayDocument(g, "[{]");
    OpenArrayStrays("{\"a\":[}");
    StrayDocument(g, "{\"a\":[}");
    OpenStringStrays("[\"\\]");
    StrayDocument(g, "[\"\\]");
  }
}