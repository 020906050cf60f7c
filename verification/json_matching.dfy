/** What the parts of the JSON grammar match, part by part. */
module JsonMatching {
  import opened Grammars
  import opened Engine
  import opened EngineLaws
  import opened JsonGrammar

  ghost predicate Ready(g: Grammar) { IsJson(g) && WellFormed(g) }

  function Yes(p: nat): Outcome { Outcome(true, p, []) }

  function No(p: nat): Outcome { Outcome(false, p, []) }

  lemma PartRuns(g: Grammar, r: Rule, s: string, p: nat)
    requires Ready(g) && p <= |s| && r.Ref? && r.slot < SLOTS
    ensures Productive(g, Body(r.slot)) && Eval(g, r, s, p) == Eval(g, Body(r.slot), s, p)
  {
    RefRuns(g, r.slot, Body(r.slot), s, p);
  }

  lemma WsRuns(g: Grammar, s: string, p: nat)
    requires Ready(g) && p <= |s|
    ensures Eval(g, WS, s, p) == Yes(RunEnd(Space, s, p))
  {
    PartRuns(g, WS, s, p);
    ClassRun(g, Space, s, p);
  }

  // ---- characters of a string ----

  predicate IsHex(ch: char) { '0' <= ch <= '9' || 'A' <= ch <= 'F' || 'a' <= ch <= 'f' }

  predicate FourHex(s: string, p: nat)
    requires p <= |s|
  {
    p + 4 <= |s| && forall i :: p <= i < p + 4 ==> IsHex(s[i])
  }

  /** Where the run of characters of a string literal ends: at a quote or the end of the text, or
      inside an escape that is not one the grammar knows. Nothing is given back in that case: the
      backslash is kept, and a `u` after it too. */
  function Scan(s: string, p: nat): (q: nat)
    requires p <= |s|
    ensures p <= q <= |s|
    decreases |s| - p
  {
    if p == |s| || s[p] == '"' then p
    else if s[p] != '\\' then Scan(s, p + 1)
    else if p + 1 < |s| && s[p + 1] in ESCAPED then Scan(s, p + 2)
    else if p + 1 < |s| && s[p + 1] == 'u' then if FourHex(s, p + 2) then Scan(s, p + 6) else p + 2
    else p + 1
  }

  lemma {:induction false} AnyOfRuns(g: Grammar, cs: string, s: string, p: nat)
    requires Ready(g) && cs != "" && p <= |s|
    ensures Productive(g, AnyOf(cs))
    ensures Eval(g, AnyOf(cs), s, p) == if p < |s| && s[p] in cs then Yes(p + 1) else No(p)
  {
    AnyOfConsumes(g, cs);
    if |cs| > 1 {
      var n := |cs| - 1;
      var rs := seq(|cs|, i requires 0 <= i < |cs| => Char(cs[i]));
      assert rs[..n] == seq(n, i requires 0 <= i < n => Char(cs[..n][i]));
      AnyOfRuns(g, cs[..n], s, p);
      OrRuns(g, Choice(rs[..n]), Char(cs[n]), s, p);
      assert cs == cs[..n] + [cs[n]];
    }
  }

  lemma Hex4Runs(g: Grammar, s: string, p: nat)
    requires Ready(g) && p <= |s|
    ensures Eval(g, HEX4, s, p) == if FourHex(s, p) then Yes(p + 4) else No(p)
  {
    PartRuns(g, HEX4, s, p);
    Hex4Iterates(g, s, p, 0);
  }

  lemma {:induction false} Hex4Iterates(g: Grammar, s: string, p: nat, n: nat)
    requires Ready(g) && p <= |s| && n <= 4 && Productive(g, Iteration(CType(XDigit), 4, 4))
    ensures var o := Iterate(g, Iteration(CType(XDigit), 4, 4), s, p, n);
            && o.trace == []
            && (o.count >= 4 <==> p + 4 - n <= |s| && forall i :: p <= i < p + 4 - n ==> InClass(XDigit, s[i]))
            && (o.count >= 4 ==> o.pos == p + 4 - n)
    decreases 4 - n
  {
    if n < 4 && p < |s| && InClass(XDigit, s[p]) { Hex4Iterates(g, s, p + 1, n + 1); }
  }

  lemma PlainRuns(g: Grammar, s: string, p: nat)
    requires Ready(g) && p <= |s|
    ensures Eval(g, PLAIN, s, p) == if p < |s| && s[p] != '"' && s[p] != '\\' then Yes(p + 1) else No(p)
  {
    PartRuns(g, PLAIN, s, p);
    var x := Exception(AnyChar, Char('"'));
    assert Productive(g, x);
    assert Eval(g, x, s, p) == if p < |s| && s[p] != '"' then Yes(p + 1) else No(p);
  }

  /** The escape rule does not restore: it stays after the backslash, or after the `u`. */
  lemma EscapeRuns(g: Grammar, s: string, p: nat)
    requires Ready(g) && p <= |s|
    ensures Eval(g, ESCAPE, s, p) ==
            if p == |s| || s[p] != '\\' then No(p)
            else if p + 1 < |s| && s[p + 1] in ESCAPED then Yes(p + 2)
            else if p + 1 < |s| && s[p + 1] == 'u' then if FourHex(s, p + 2) then Yes(p + 6) else No(p + 2)
            else No(p + 1)
  {
    PartRuns(g, ESCAPE, s, p);
    var u := And(Char('u'), HEX4);
    AndRuns(g, Char('\\'), Or(AnyOf(ESCAPED), u), s, p);
    if p < |s| && s[p] == '\\' {
      OrRuns(g, AnyOf(ESCAPED), u, s, p + 1);
      AnyOfRuns(g, ESCAPED, s, p + 1);
      AndRuns(g, Char('u'), HEX4, s, p + 1);
      if p + 1 < |s| && s[p + 1] == 'u' { Hex4Runs(g, s, p + 2); }
    }
  }

  /** One turn of the run: a plain character or an escape. */
  function CharStep(s: string, p: nat): (o: Outcome)
    requires p <= |s|
    ensures p <= o.pos <= |s| && (o.ok ==> p < o.pos)
    ensures Scan(s, p) == if o.ok then Scan(s, o.pos) else o.pos
  {
    if p == |s| || s[p] == '"' then No(p)
    else if s[p] != '\\' then Yes(p + 1)
    else if p + 1 < |s| && s[p + 1] in ESCAPED then Yes(p + 2)
    else if p + 1 < |s| && s[p + 1] == 'u' then if FourHex(s, p + 2) then Yes(p + 6) else No(p + 2)
    else No(p + 1)
  }

  lemma CharRuns(g: Grammar, s: string, p: nat)
    requires Ready(g) && p <= |s| && Productive(g, Or(PLAIN, ESCAPE))
    ensures Eval(g, Or(PLAIN, ESCAPE), s, p) == CharStep(s, p)
  {
    OrRuns(g, PLAIN, ESCAPE, s, p);
    PlainRuns(g, s, p);
    EscapeRuns(g, s, p);
  }

  lemma {:induction false} CharsRun(g: Grammar, s: string, p: nat)
    requires Ready(g) && p <= |s|
    ensures Eval(g, CHARS, s, p) == Yes(Scan(s, p))
    decreases |s| - p
  {
    PartRuns(g, CHARS, s, p);
    StarRuns(g, Or(PLAIN, ESCAPE), s, p);
    CharRuns(g, s, p);
    var o := CharStep(s, p);
    if o.ok {
      CharsRun(g, s, o.pos);
      PartRuns(g, CHARS, s, o.pos);
    }
  }

  /** `"..."`, whatever is bound to the characters. */
  lemma QuotedRuns(g: Grammar, action: ActionId, s: string, p: nat)
    requires Ready(g) && p <= |s|
    requires Productive(g, Quoted(action))
    ensures var o := Eval(g, Quoted(action), s, p);
            if p < |s| && s[p] == '"' then
              var q := Scan(s, p + 1);
              var fired := [Fired(action, p + 1, q)];
              if q < |s| && s[q] == '"' then o == Outcome(true, q + 1, fired) else o == Outcome(false, q, fired)
            else o == No(p)
  {
    var run := Extractor(CHARS, action);
    AndRuns(g, And(Char('"'), run), Char('"'), s, p);
    AndRuns(g, Char('"'), run, s, p);
    if p < |s| && s[p] == '"' {
      ExtractorRuns(g, CHARS, action, s, p + 1);
      CharsRun(g, s, p + 1);
    }
  }

  // ---- numbers ----

  /** Where the digits of `-(+|-) +digit` start. */
  function SignEnd(s: string, p: nat): nat
    requires p <= |s|
  {
    if p < |s| && (s[p] == '+' || s[p] == '-') then p + 1 else p
  }

  lemma IntPartRuns(g: Grammar, s: string, p: nat)
    requires Ready(g) && p <= |s|
    ensures var d := SignEnd(s, p); var q := RunEnd(Digit, s, d);
            Eval(g, INT_PART, s, p) == if q > d then Yes(q) else No(d)
  {
    PartRuns(g, INT_PART, s, p);
    var sign := Or(Char('+'), Char('-'));
    AndRuns(g, Maybe(sign), Plus(CType(Digit)), s, p);
    MaybeRuns(g, sign, s, p);
    OrRuns(g, Char('+'), Char('-'), s, p);
    ClassRun1(g, Digit, s, SignEnd(s, p));
  }

  lemma VIntRuns(g: Grammar, s: string, p: nat)
    requires Ready(g) && p <= |s|
    ensures var d := SignEnd(s, p); var q := RunEnd(Digit, s, d);
            Eval(g, V_INT, s, p) == if q > d then Outcome(true, q, [Fired(INT_VALUE, p, q)]) else No(p)
  {
    PartRuns(g, V_INT, s, p);
    ExtractorRuns(g, INT_PART, INT_VALUE, s, p);
    IntPartRuns(g, s, p);
  }

  lemma DotOrExpFails(g: Grammar, s: string, p: nat)
    requires Ready(g) && p <= |s| && (p == |s| || (s[p] != '.' && s[p] != 'e'))
    ensures Eval(g, FRAC, s, p) == No(p) && Eval(g, EXP, s, p) == No(p)
  {
    PartRuns(g, FRAC, s, p);
    AndRuns(g, Char('.'), Star(CType(Digit)), s, p);
    PartRuns(g, EXP, s, p);
    AndRuns(g, Char('e'), Star(CType(Digit)), s, p);
  }

  /** A whole number is not a double: the attempt fails after the digits and gives them back. */
  lemma VDoubleFails(g: Grammar, s: string, p: nat)
    requires Ready(g) && p <= |s|
    requires var q := RunEnd(Digit, s, SignEnd(s, p)); q == SignEnd(s, p) || q == |s| || (s[q] != '.' && s[q] != 'e')
    ensures Eval(g, V_DOUBLE, s, p) == No(p)
  {
    PartRuns(g, V_DOUBLE, s, p);
    var tail := Or(Or(FRAC, EXP), And(FRAC, EXP));
    ExtractorRuns(g, And(INT_PART, tail), DOUBLE_VALUE, s, p);
    AndRuns(g, INT_PART, tail, s, p);
    IntPartRuns(g, s, p);
    var o := Eval(g, INT_PART, s, p);
    if o.ok {
      OrRuns(g, Or(FRAC, EXP), And(FRAC, EXP), s, o.pos);
      OrRuns(g, FRAC, EXP, s, o.pos);
      AndRuns(g, FRAC, EXP, s, o.pos);
      DotOrExpFails(g, s, o.pos);
    }
  }
}
