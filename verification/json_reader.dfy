/** What the JSON grammar does with any text, in closed form: a reader by recursive descent that
    gives the same verdict, position and calls as the rules, and notes whether it went on past a
    part that had failed after moving. */
module JsonReader {
  import opened Grammars
  import opened Engine
  import opened EngineLaws
  import opened JsonGrammar
  import opened JsonMatching
  import opened JsonRoundTrip
  import opened JsonTheorems

  /** `strays`: some part failed after it had moved, and the reading went on from there. */
  datatype Reading = Reading(o: Outcome, strays: bool)

  function Clean(o: Outcome): Reading { Reading(o, false) }

  // ---- strings ----

  /** Where the last complete character of a run ends. */
  function CharsEnd(s: string, p: nat): (q: nat)
    requires p <= |s|
    ensures p <= q <= Scan(s, p) && !CharStep(s, q).ok && CharStep(s, q).pos == Scan(s, p)
    decreases |s| - p
  {
    var o := CharStep(s, p);
    if o.ok then CharsEnd(s, o.pos) else p
  }

  /** A quoted run. It strays when it is closed by a quote that stands right after an incomplete
      escape. */
  function QuotedRun(s: string, p: nat, action: ActionId): (r: Reading)
    requires p < |s|
    ensures p < r.o.pos <= |s|
  {
    var e := Scan(s, p + 1);
    var fired := [Fired(action, p + 1, e)];
    if e < |s| && s[e] == '"' then Reading(Outcome(true, e + 1, fired), CharsEnd(s, p + 1) != e)
    else Reading(Outcome(false, e, fired), false)
  }

  // ---- words and numbers ----

  function Word(s: string, p: nat, w: string, action: ActionId): Outcome
    requires p <= |s|
  {
    if HasAt(s, p, w) then Outcome(true, p + |w|, [Fired(action, p, p + |w|)]) else No(p)
  }

  function NumberRun(s: string, p: nat): (o: Outcome)
    requires p <= |s|
    ensures p <= o.pos <= |s| && (!o.ok ==> o == No(p))
  {
    var d := SignEnd(s, p);
    var q := RunEnd(Digit, s, d);
    if q == d then No(p)
    else if q < |s| && (s[q] == '.' || s[q] == 'e') then
      var r := RunEnd(Digit, s, q + 1); Outcome(true, r, [Fired(DOUBLE_VALUE, p, r)])
    else Outcome(true, q, [Fired(INT_VALUE, p, q)])
  }

  // ---- values ----

  function ReadValue(s: string, p: nat): (r: Reading)
    requires p <= |s|
    ensures p <= r.o.pos <= |s| && (r.o.ok ==> p < r.o.pos)
    decreases |s| - p, 1
  {
    if p == |s| then Clean(No(p))
    else if s[p] == 'n' then Clean(Word(s, p, "null", NULL_VALUE))
    else if s[p] == 't' then Clean(Word(s, p, "true", TRUE_VALUE))
    else if s[p] == 'f' then Clean(Word(s, p, "false", FALSE_VALUE))
    else if s[p] == '"' then
      var x := QuotedRun(s, p, STRING_VALUE);
      if x.o.ok then x else
      var a := ReadArray(s, x.o.pos);
      if a.o.ok then Reading(Then(x.o, a.o), true) else
      var b := ReadObject(s, a.o.pos);
      Reading(Then(Then(x.o, a.o), b.o), true)
    else if s[p] == '[' then
      var a := ReadArray(s, p);
      if a.o.ok then a else
      var b := ReadObject(s, a.o.pos);
      Reading(Then(a.o, b.o), true)
    else if s[p] == '{' then ReadObject(s, p)
    else Clean(NumberRun(s, p))
  }

  function ReadArray(s: string, p: nat): (r: Reading)
    requires p <= |s|
    ensures p <= r.o.pos <= |s| && (r.o.ok || (p < |s| && s[p] == '[') ==> p < r.o.pos)
    decreases |s| - p, 0
  {
    if p == |s| || s[p] != '[' then Clean(No(p)) else
    var items := ReadItems(s, RunEnd(Space, s, p + 1));
    Closed(s, p, ARRAY_BEGIN, items, ']', ARRAY_END)
  }

  function ReadObject(s: string, p: nat): (r: Reading)
    requires p <= |s|
    ensures p <= r.o.pos <= |s| && (r.o.ok || (p < |s| && s[p] == '{') ==> p < r.o.pos)
    decreases |s| - p, 0
  {
    if p == |s| || s[p] != '{' then Clean(No(p)) else
    var members := ReadMembers(s, RunEnd(Space, s, p + 1));
    Closed(s, p, OBJ_BEGIN, members, '}', OBJ_END)
  }

  /** An opening bracket at `p`, the inner part, white space and the closing bracket. */
  function Closed(s: string, p: nat, begin: ActionId, inner: Reading, d: char, end: ActionId): (r: Reading)
    requires p < inner.o.pos <= |s|
    ensures p < r.o.pos <= |s|
  {
    var w := RunEnd(Space, s, inner.o.pos);
    var calls := [Fired(begin, p, p + 1)] + inner.o.trace;
    if w < |s| && s[w] == d then Reading(Outcome(true, w + 1, calls + [Fired(end, w, w + 1)]), inner.strays)
    else Reading(Outcome(false, w, calls), inner.strays)
  }

  /** One item up to the white space after its value. */
  function ReadItem(s: string, q: nat): (r: Reading)
    requires q <= |s|
    ensures q <= r.o.pos <= |s| && (r.o.ok ==> q < r.o.pos)
    decreases |s| - q, 2
  {
    if q < |s| && s[q] == ']' then Clean(No(q)) else
    var v := ReadValue(s, q);
    var calls := [Fired(ARRAY_ITEM, q, q)] + v.o.trace;
    Reading(Outcome(v.o.ok, if v.o.ok then RunEnd(Space, s, v.o.pos) else v.o.pos, calls), v.strays)
  }

  /** One member up to the end of its value. */
  function ReadMember(s: string, q: nat): (r: Reading)
    requires q <= |s|
    ensures q <= r.o.pos <= |s| && (r.o.ok ==> q < r.o.pos)
    decreases |s| - q, 2
  {
    if q == |s| || s[q] != '"' then Clean(No(q)) else
    var key := QuotedRun(s, q, OBJ_ITEM);
    if !key.o.ok then key else
    var c := RunEnd(Space, s, key.o.pos);
    if c == |s| || s[c] != ':' then Clean(Outcome(false, c, key.o.trace)) else
    var v := ReadValue(s, RunEnd(Space, s, c + 1));
    Reading(Then(key.o, v.o), key.strays || v.strays)
  }

  /** Where the rest of a list starts: after a comma at `w` and white space. */
  function Next(s: string, w: nat): (n: nat)
    requires w <= |s|
    ensures w <= n <= |s|
  {
    if w < |s| && s[w] == ',' then RunEnd(Space, s, w + 1) else w
  }

  predicate GoesOn(s: string, h: Outcome)
    requires h.pos <= |s|
  {
    h.ok && h.pos < |s| && s[h.pos] == ','
  }

  /** A list that ends with `h`, which may be no element, or a part of one. */
  function Ended(q: nat, h: Reading): Reading
  {
    Reading(Outcome(true, h.o.pos, h.o.trace), if h.o.ok then h.strays else h.o.pos != q)
  }

  function Listed(h: Reading, more: Reading): Reading
  {
    Reading(Outcome(true, more.o.pos, h.o.trace + more.o.trace), h.strays || more.strays)
  }

  /** The optional items of an array: always matches. */
  function ReadItems(s: string, q: nat): (r: Reading)
    requires q <= |s|
    ensures r.o.ok && q <= r.o.pos <= |s|
    decreases |s| - q, 3
  {
    var h := ReadItem(s, q);
    if GoesOn(s, h.o) then Listed(h, ReadItems(s, Next(s, h.o.pos))) else Ended(q, h)
  }

  /** The optional members of an object: always matches. */
  function ReadMembers(s: string, q: nat): (r: Reading)
    requires q <= |s|
    ensures r.o.ok && q <= r.o.pos <= |s|
    decreases |s| - q, 3
  {
    var h := ReadMember(s, q);
    if GoesOn(s, h.o) then Listed(h, ReadMembers(s, Next(s, h.o.pos))) else Ended(q, h)
  }

  // ---- the rules do what the reader does ----

  lemma NullIs(g: Grammar, s: string, p: nat)
    requires Ready(g) && p <= |s|
    ensures Eval(g, V_NULL, s, p) == Word(s, p, "null", NULL_VALUE)
  {
    PartRuns(g, V_NULL, s, p);
    WordIs(g, "null", NULL_VALUE, s, p);
  }

  lemma WordIs(g: Grammar, w: string, a: ActionId, s: string, p: nat)
    requires Ready(g) && p <= |s|
    ensures Eval(g, Extractor(Literal(w), a), s, p) == Word(s, p, w, a)
  {
    ExtractorRuns(g, Literal(w), a, s, p);
  }

  lemma BoolIs(g: Grammar, s: string, p: nat)
    requires Ready(g) && p <= |s|
    ensures var t, f := Word(s, p, "true", TRUE_VALUE), Word(s, p, "false", FALSE_VALUE);
      Eval(g, V_BOOL, s, p) == if t.ok then t else f
  {
    var t, f := Extractor(Literal("true"), TRUE_VALUE), Extractor(Literal("false"), FALSE_VALUE);
    assert Eval(g, V_BOOL, s, p) == Eval(g, Or(t, f), s, p) by { PartRuns(g, V_BOOL, s, p); }
    OrRuns(g, t, f, s, p);
    WordIs(g, "true", TRUE_VALUE, s, p);
    WordIs(g, "false", FALSE_VALUE, s, p);
  }

  /** A double: digits with a dot or an exponent after them. Otherwise nothing is consumed. */
  lemma DoubleIs(g: Grammar, s: string, p: nat)
    requires Ready(g) && p <= |s|
    ensures var o := NumberRun(s, p);
      Eval(g, V_DOUBLE, s, p) == if o.ok && o.trace == [Fired(DOUBLE_VALUE, p, o.pos)] then o else No(p)
  {
    var d := SignEnd(s, p);
    var q := RunEnd(Digit, s, d);
    if q > d && q < |s| && (s[q] == '.' || s[q] == 'e') {
      DoubleRuns(g, s, p, q);
    } else {
      VDoubleFails(g, s, p);
    }
  }

  lemma DoubleRuns(g: Grammar, s: string, p: nat, q: nat)
    requires Ready(g) && p <= |s| && SignEnd(s, p) < q == RunEnd(Digit, s, SignEnd(s, p)) < |s|
    requires s[q] == '.' || s[q] == 'e'
    ensures var r := RunEnd(Digit, s, q + 1); Eval(g, V_DOUBLE, s, p) == Outcome(true, r, [Fired(DOUBLE_VALUE, p, r)])
  {
    var tail := Or(Or(FRAC, EXP), And(FRAC, EXP));
    PartRuns(g, V_DOUBLE, s, p);
    ExtractorRuns(g, And(INT_PART, tail), DOUBLE_VALUE, s, p);
    AndRuns(g, INT_PART, tail, s, p);
    IntPartRuns(g, s, p);
    FractionIs(g, s, q);
    OrRuns(g, Or(FRAC, EXP), And(FRAC, EXP), s, q);
    OrRuns(g, FRAC, EXP, s, q);
    var r := RunEnd(Digit, s, q + 1);
    assert [] + [Fired(DOUBLE_VALUE, p, r)] == [Fired(DOUBLE_VALUE, p, r)];
  }

  lemma FractionIs(g: Grammar, s: string, q: nat)
    requires Ready(g) && q < |s|
    ensures Eval(g, FRAC, s, q) == if s[q] == '.' then Yes(RunEnd(Digit, s, q + 1)) else No(q)
    ensures Eval(g, EXP, s, q) == if s[q] == 'e' then Yes(RunEnd(Digit, s, q + 1)) else No(q)
  {
    PartRuns(g, FRAC, s, q);
    PartRuns(g, EXP, s, q);
    AndRuns(g, Char('.'), Star(CType(Digit)), s, q);
    AndRuns(g, Char('e'), Star(CType(Digit)), s, q);
    ClassRun(g, Digit, s, q + 1);
  }

  lemma StringIs(g: Grammar, s: string, p: nat)
    requires Ready(g) && p <= |s|
    ensures Eval(g, V_STRING, s, p) == if p < |s| && s[p] == '"' then QuotedRun(s, p, STRING_VALUE).o else No(p)
  {
    PartRuns(g, V_STRING, s, p);
    QuotedRuns(g, STRING_VALUE, s, p);
  }

  lemma KeyIs(g: Grammar, s: string, p: nat)
    requires Ready(g) && p <= |s|
    ensures Eval(g, IDENTIFIER, s, p) == if p < |s| && s[p] == '"' then QuotedRun(s, p, OBJ_ITEM).o else No(p)
  {
    PartRuns(g, IDENTIFIER, s, p);
    QuotedRuns(g, OBJ_ITEM, s, p);
  }

  function CharFired(s: string, p: nat, c: char, a: ActionId): Outcome
    requires p <= |s|
  {
    if p < |s| && s[p] == c then Outcome(true, p + 1, [Fired(a, p, p + 1)]) else No(p)
  }

  /** A character with something bound to it, there or not. */
  lemma FiredIs(g: Grammar, c: char, a: ActionId, s: string, p: nat)
    requires WellFormed(g) && p <= |s|
    ensures Productive(g, Extractor(Char(c), a))
    ensures Eval(g, Extractor(Char(c), a), s, p) == CharFired(s, p, c, a)
  {
    if p < |s| && s[p] == c {
      FiredChar(g, c, a, s, p);
    } else {
      assert Eval(g, Char(c), s, p) == No(p);
      ExtractorRuns(g, Char(c), a, s, p);
    }
  }

  /** A bracket, white space, an inner part that matches, white space and a bracket. */
  lemma ClosedRuns(g: Grammar, open: Rule, mid: Rule, close: Rule, s: string, p: nat, call: Engine.Event,
                   inner: Outcome)
    requires Ready(g) && Productive(g, And5(open, WS, mid, WS, close)) && p < |s| && inner.ok
    requires Productive(g, open) && Eval(g, open, s, p) == Outcome(true, p + 1, [call])
    requires Productive(g, mid) && Eval(g, mid, s, RunEnd(Space, s, p + 1)) == inner
    ensures Productive(g, close) && inner.pos <= |s|
    ensures var end := Eval(g, close, s, RunEnd(Space, s, inner.pos));
      Eval(g, And5(open, WS, mid, WS, close), s, p) == Outcome(end.ok, end.pos, [call] + inner.trace + end.trace)
  {
    And5Parts(g, open, WS, mid, WS, close);
    WsRuns(g, s, p + 1);
    WsRuns(g, s, inner.pos);
    And5Matches(g, open, WS, mid, WS, close, s, p, Outcome(true, p + 1, [call]), RunEnd(Space, s, p + 1), inner,
                RunEnd(Space, s, inner.pos));
  }

  lemma ClosedAs(s: string, p: nat, begin: ActionId, inner: Reading, d: char, end: ActionId)
    requires p < inner.o.pos <= |s|
    ensures var e := CharFired(s, RunEnd(Space, s, inner.o.pos), d, end);
      Closed(s, p, begin, inner, d, end).o == Outcome(e.ok, e.pos, [Fired(begin, p, p + 1)] + inner.o.trace + e.trace)
  {
    assert [Fired(begin, p, p + 1)] + inner.o.trace + [] == [Fired(begin, p, p + 1)] + inner.o.trace;
  }

  /** A bracketed rule whose inner part always matches. */
  lemma ClosedIs(g: Grammar, c: char, a1: ActionId, mid: Rule, d: char, a2: ActionId, s: string, p: nat, inner: Reading)
    requires Ready(g) && Productive(g, And5(Extractor(Char(c), a1), WS, mid, WS, Extractor(Char(d), a2)))
    requires p < |s| && s[p] == c && Productive(g, mid) && inner.o.ok
    requires Eval(g, mid, s, RunEnd(Space, s, p + 1)) == inner.o
    ensures Eval(g, And5(Extractor(Char(c), a1), WS, mid, WS, Extractor(Char(d), a2)), s, p)
            == Closed(s, p, a1, inner, d, a2).o
  {
    FiredIs(g, c, a1, s, p);
    ClosedRuns(g, Extractor(Char(c), a1), mid, Extractor(Char(d), a2), s, p, Fired(a1, p, p + 1), inner.o);
    FiredIs(g, d, a2, s, RunEnd(Space, s, inner.o.pos));
    ClosedAs(s, p, a1, inner, d, a2);
  }

  /** A separator, white space and a part. */
  lemma SeparatedIs(g: Grammar, mark: Rule, mid: Rule, s: string, q: nat, there: bool)
    requires Ready(g) && q <= |s| && Productive(g, And3(mark, WS, mid)) && Productive(g, mark)
    requires Eval(g, mark, s, q) == (if there then Yes(q + 1) else No(q))
    ensures Productive(g, mid)
    ensures there ==> q + 1 <= |s|
    ensures Eval(g, And3(mark, WS, mid), s, q)
            == if there then Eval(g, mid, s, RunEnd(Space, s, q + 1)) else No(q)
  {
    And3Runs(g, mark, WS, mid, s, q);
    if there {
      WsRuns(g, s, q + 1);
      var o := Eval(g, mid, s, RunEnd(Space, s, q + 1));
      assert ([] + []) + o.trace == o.trace;
    }
  }

  /** `',' & _ws & -rest`, optional. */
  lemma TailIs(g: Grammar, rest: Rule, s: string, q: nat)
    requires Ready(g) && q <= |s| && Productive(g, Maybe(And3(Char(','), WS, Maybe(rest))))
      && Productive(g, Maybe(rest))
    ensures Eval(g, Maybe(And3(Char(','), WS, Maybe(rest))), s, q)
            == if q < |s| && s[q] == ',' then Eval(g, Maybe(rest), s, RunEnd(Space, s, q + 1)) else Yes(q)
  {
    MaybeRuns(g, And3(Char(','), WS, Maybe(rest)), s, q);
    SeparatedIs(g, Char(','), Maybe(rest), s, q, q < |s| && s[q] == ',');
    if q < |s| && s[q] == ',' { MaybeRuns(g, rest, s, RunEnd(Space, s, q + 1)); }
  }

  /** A part that is only called, a value and white space. */
  lemma CalledRuns(g: Grammar, look: Rule, value: Rule, s: string, q: nat, call: Engine.Event)
    requires Ready(g) && q <= |s| && Productive(g, And3(look, value, WS))
    requires Productive(g, look) && Eval(g, look, s, q) == Outcome(true, q, [call])
    ensures Productive(g, value)
    ensures var v := Eval(g, value, s, q);
      Eval(g, And3(look, value, WS), s, q)
      == Outcome(v.ok, if v.ok then RunEnd(Space, s, v.pos) else v.pos, [call] + v.trace)
  {
    And3Runs(g, look, value, WS, s, q);
    var v := Eval(g, value, s, q);
    WsRuns(g, s, v.pos);
    assert [call] + v.trace + [] == [call] + v.trace;
  }

  lemma LookIs(g: Grammar, s: string, q: nat)
    requires WellFormed(g) && q <= |s| && !(q < |s| && s[q] == ']')
    ensures var look := Extractor(Not(Char(']')), ARRAY_ITEM);
      Productive(g, look) && Eval(g, look, s, q) == Outcome(true, q, [Fired(ARRAY_ITEM, q, q)])
  {
    assert Productive(g, Char(']')) && Productive(g, Not(Char(']'))) && Eval(g, Not(Char(']')), s, q) == Yes(q);
    ExtractorRuns(g, Not(Char(']')), ARRAY_ITEM, s, q);
    assert [] + [Fired(ARRAY_ITEM, q, q)] == [Fired(ARRAY_ITEM, q, q)];
  }

  /** The part of an item before the rest of the list, given what its value comes to. */
  lemma ItemIs(g: Grammar, s: string, q: nat)
    requires Ready(g) && q <= |s| && Eval(g, VALUE, s, q) == ReadValue(s, q).o
    requires Productive(g, And3(Extractor(Not(Char(']')), ARRAY_ITEM), VALUE, WS))
    ensures Eval(g, And3(Extractor(Not(Char(']')), ARRAY_ITEM), VALUE, WS), s, q) == ReadItem(s, q).o
  {
    var look := Extractor(Not(Char(']')), ARRAY_ITEM);
    if q < |s| && s[q] == ']' {
      And3Runs(g, look, VALUE, WS, s, q);
      ExtractorRuns(g, Not(Char(']')), ARRAY_ITEM, s, q);
    } else {
      LookIs(g, s, q);
      CalledRuns(g, look, VALUE, s, q, Fired(ARRAY_ITEM, q, q));
    }
  }

  /** A key, a colon and a value, with white space between them. */
  lemma HeadRuns(g: Grammar, name: Rule, colon: Rule, value: Rule, s: string, q: nat, key: Outcome)
    requires Ready(g) && q <= |s| && Productive(g, And5(name, WS, colon, WS, value))
    requires Productive(g, name) && Eval(g, name, s, q) == key && key.ok
    requires Productive(g, colon) && key.pos <= |s|
    requires var c := RunEnd(Space, s, key.pos);
      Eval(g, colon, s, c) == if c < |s| && s[c] == ':' then Yes(c + 1) else No(c)
    ensures Productive(g, value)
    ensures var c := RunEnd(Space, s, key.pos);
      Eval(g, And5(name, WS, colon, WS, value), s, q) ==
        if c == |s| || s[c] != ':' then Outcome(false, c, key.trace)
        else Then(key, Eval(g, value, s, RunEnd(Space, s, c + 1)))
  {
    And5Runs(g, name, WS, colon, WS, value, s, q);
    var c := RunEnd(Space, s, key.pos);
    WsRuns(g, s, key.pos);
    assert key.trace + [] == key.trace;
    if c < |s| && s[c] == ':' { WsRuns(g, s, c + 1); }
  }

  lemma HeadIs(g: Grammar, s: string, q: nat, key: Outcome)
    requires Ready(g) && q <= |s| && Productive(g, And5(IDENTIFIER, WS, Char(':'), WS, VALUE))
    requires Eval(g, IDENTIFIER, s, q) == key && key.ok
    ensures var c := RunEnd(Space, s, key.pos);
      Eval(g, And5(IDENTIFIER, WS, Char(':'), WS, VALUE), s, q) ==
        if c == |s| || s[c] != ':' then Outcome(false, c, key.trace)
        else Then(key, Eval(g, VALUE, s, RunEnd(Space, s, c + 1)))
  {
    HeadRuns(g, IDENTIFIER, Char(':'), VALUE, s, q, key);
  }

  lemma NoKeyIs(g: Grammar, s: string, q: nat)
    requires Ready(g) && q <= |s| && Productive(g, And5(IDENTIFIER, WS, Char(':'), WS, VALUE))
    requires !Eval(g, IDENTIFIER, s, q).ok
    ensures Eval(g, And5(IDENTIFIER, WS, Char(':'), WS, VALUE), s, q) == Eval(g, IDENTIFIER, s, q)
  {
    And5Runs(g, IDENTIFIER, WS, Char(':'), WS, VALUE, s, q);
  }

  /** Where the value of a member starts, when its key and colon are there. */
  function ValueStart(s: string, q: nat): (b: nat)
    requires q <= |s|
    ensures q <= b <= |s| && (b == q || q < b)
  {
    if q == |s| || s[q] != '"' || !QuotedRun(s, q, OBJ_ITEM).o.ok then q else
    var c := RunEnd(Space, s, QuotedRun(s, q, OBJ_ITEM).o.pos);
    if c == |s| || s[c] != ':' then q else RunEnd(Space, s, c + 1)
  }

  /** The part of a member before the rest of the list, given what its value comes to. */
  lemma MemberIs(g: Grammar, s: string, q: nat)
    requires Ready(g) && q <= |s| && Productive(g, And5(IDENTIFIER, WS, Char(':'), WS, VALUE))
    requires var b := ValueStart(s, q); b != q ==> Eval(g, VALUE, s, b) == ReadValue(s, b).o
    ensures Eval(g, And5(IDENTIFIER, WS, Char(':'), WS, VALUE), s, q) == ReadMember(s, q).o
  {
    var key := Eval(g, IDENTIFIER, s, q);
    KeyIs(g, s, q);
    if key.ok { HeadIs(g, s, q, key); } else { NoKeyIs(g, s, q); }
  }

  // ---- lists ----

  /** The two rules for a list: an element, and optionally a comma and the rest. */
  predicate IsList(part: Rule, head: Rule, tail: Rule)
  {
    || (part == ITEM && head == And3(Extractor(Not(Char(']')), ARRAY_ITEM), VALUE, WS) && tail == MORE_ITEMS)
    || (part == MEMBER && head == And5(IDENTIFIER, WS, Char(':'), WS, VALUE) && tail == MORE_MEMBERS)
  }

  lemma ListParts(part: Rule, head: Rule, tail: Rule)
    requires IsList(part, head, tail)
    ensures part.Ref? && part.slot < SLOTS && Body(part.slot) == And(head, tail)
    ensures tail.Ref? && tail.slot < SLOTS && Body(tail.slot) == Maybe(And3(Char(','), WS, Maybe(part)))
  {
  }

  lemma TailParts(g: Grammar, rest: Rule)
    requires Productive(g, Maybe(And3(Char(','), WS, Maybe(rest))))
    ensures Productive(g, Maybe(rest))
  {
    assert Productive(g, And3(Char(','), WS, Maybe(rest)));
  }

  lemma MoreIs(g: Grammar, part: Rule, head: Rule, tail: Rule, s: string, w: nat)
    requires Ready(g) && w <= |s| && IsList(part, head, tail)
    ensures Productive(g, tail) && Productive(g, Maybe(part))
    ensures Eval(g, tail, s, w) == if w < |s| && s[w] == ',' then Eval(g, Maybe(part), s, Next(s, w)) else Yes(w)
  {
    ListParts(part, head, tail);
    PartRuns(g, tail, s, w);
    TailParts(g, part);
    TailIs(g, part, s, w);
  }

  lemma ElementRuns(g: Grammar, part: Rule, head: Rule, tail: Rule, s: string, q: nat)
    requires Ready(g) && q <= |s| && IsList(part, head, tail)
    ensures Productive(g, head) && Productive(g, tail) && Productive(g, part)
    ensures var h := Eval(g, head, s, q);
      Eval(g, part, s, q) == if h.ok then Then(h, Eval(g, tail, s, h.pos)) else h
  {
    ListParts(part, head, tail);
    PartRuns(g, part, s, q);
    AndRuns(g, head, tail, s, q);
  }

  lemma ListRuns(g: Grammar, part: Rule, head: Rule, tail: Rule, s: string, q: nat)
    requires Ready(g) && q <= |s| && IsList(part, head, tail)
    ensures Productive(g, head) && Productive(g, Maybe(part))
    ensures var h := Eval(g, head, s, q);
      Eval(g, Maybe(part), s, q) ==
        if GoesOn(s, h) then Then(h, Eval(g, Maybe(part), s, Next(s, h.pos))).(ok := true)
        else Outcome(true, h.pos, h.trace)
  {
    ElementRuns(g, part, head, tail, s, q);
    var h := Eval(g, head, s, q);
    MoreIs(g, part, head, tail, s, h.pos);
    MaybeRuns(g, part, s, q);
    assert h.trace + [] == h.trace;
  }

  // ---- the value rule ----

  /** The alternatives that fail in place: words and numbers. */
  function Plain(s: string, p: nat): (o: Outcome)
    requires p <= |s|
    ensures p <= o.pos <= |s| && (!o.ok ==> o == No(p))
  {
    if p == |s| then No(p)
    else if s[p] == 'n' then Word(s, p, "null", NULL_VALUE)
    else if s[p] == 't' then Word(s, p, "true", TRUE_VALUE)
    else if s[p] == 'f' then Word(s, p, "false", FALSE_VALUE)
    else NumberRun(s, p)
  }

  lemma WordMisses(s: string, p: nat, w: string, action: ActionId)
    requires p <= |s| && w != "" && (p < |s| ==> s[p] != w[0])
    ensures Word(s, p, w, action) == No(p)
  {
    if HasAt(s, p, w) { FirstAt(s, p, w); }
  }

  lemma IntIs(g: Grammar, s: string, p: nat)
    requires Ready(g) && p <= |s| && Eval(g, V_DOUBLE, s, p) == No(p)
    ensures Eval(g, V_INT, s, p) == NumberRun(s, p)
  {
    DoubleIs(g, s, p);
    VIntRuns(g, s, p);
  }

  /** An alternative that fails in place leaves everything to the next one. */
  lemma SkipsFailed(g: Grammar, a: Rule, b: Rule, s: string, p: nat)
    requires Runnable(g, Or(a, b), s, p) && Productive(g, a) && Productive(g, b) && Eval(g, a, s, p) == No(p)
    ensures Eval(g, Or(a, b), s, p) == Eval(g, b, s, p)
  {
    OrRuns(g, a, b, s, p);
    assert [] + Eval(g, b, s, p).trace == Eval(g, b, s, p).trace;
  }

  lemma PlainIs(g: Grammar, s: string, p: nat)
    requires Ready(g) && p <= |s| && Productive(g, Or(Or(Or(V_NULL, V_BOOL), V_DOUBLE), V_INT))
    ensures Eval(g, Or(Or(Or(V_NULL, V_BOOL), V_DOUBLE), V_INT), s, p) == Plain(s, p)
  {
    var nb := Or(V_NULL, V_BOOL);
    var nbd := Or(nb, V_DOUBLE);
    assert Productive(g, nbd) && Productive(g, nb);
    var n, b, d := Eval(g, V_NULL, s, p), Eval(g, V_BOOL, s, p), Eval(g, V_DOUBLE, s, p);
    NullIs(g, s, p);
    BoolIs(g, s, p);
    DoubleIs(g, s, p);
    WordsMiss(s, p);
    if n.ok { OrRuns(g, V_NULL, V_BOOL, s, p); } else { SkipsFailed(g, V_NULL, V_BOOL, s, p); }
    if n.ok || b.ok { OrRuns(g, nb, V_DOUBLE, s, p); } else { SkipsFailed(g, nb, V_DOUBLE, s, p); }
    if n.ok || b.ok || d.ok {
      OrRuns(g, nbd, V_INT, s, p);
    } else {
      SkipsFailed(g, nbd, V_INT, s, p);
      IntIs(g, s, p);
    }
  }

  /** At most one of the words can be at a place, and then no number is. */
  lemma WordsMiss(s: string, p: nat)
    requires p <= |s|
    ensures (p == |s| || s[p] != 'n') ==> Word(s, p, "null", NULL_VALUE) == No(p)
    ensures (p == |s| || s[p] != 't') ==> Word(s, p, "true", TRUE_VALUE) == No(p)
    ensures (p == |s| || s[p] != 'f') ==> Word(s, p, "false", FALSE_VALUE) == No(p)
    ensures (p == |s| || s[p] == 'n' || s[p] == 't' || s[p] == 'f') ==> NumberRun(s, p) == No(p)
  {
    if p == |s| || s[p] != 'n' { WordMisses(s, p, "null", NULL_VALUE); }
    if p == |s| || s[p] != 't' { WordMisses(s, p, "true", TRUE_VALUE); }
    if p == |s| || s[p] != 'f' { WordMisses(s, p, "false", FALSE_VALUE); }
  }

  lemma PlainChoice()
    ensures Choice([V_NULL, V_BOOL, V_DOUBLE, V_INT]) == Or(Or(Or(V_NULL, V_BOOL), V_DOUBLE), V_INT)
  {
    assert [V_NULL, V_BOOL, V_DOUBLE, V_INT] == [V_NULL] + [V_BOOL] + [V_DOUBLE] + [V_INT];
    ChoiceAppends([V_NULL], V_BOOL);
    ChoiceAppends([V_NULL] + [V_BOOL], V_DOUBLE);
    ChoiceAppends([V_NULL] + [V_BOOL] + [V_DOUBLE], V_INT);
  }

  /** The value rule in terms of its last three alternatives: each starts where the one before it
      stopped. */
  lemma ValueSplits(g: Grammar, s: string, p: nat)
    requires Ready(g) && p <= |s|
    ensures var x := Plain(s, p);
      var t := if x.ok then x else Eval(g, V_STRING, s, p);
      var a := if t.ok then t else Then(t, Eval(g, V_ARRAY, s, t.pos));
      Eval(g, VALUE, s, p) == if a.ok then a else Then(a, Eval(g, V_OBJECT, s, a.pos))
  {
    ValueParts(g, s, p);
    PlainChoice();
    PlainIs(g, s, p);
    var first := Or(Or(Or(V_NULL, V_BOOL), V_DOUBLE), V_INT);
    var str := Or(first, V_STRING);
    var arr := Or(str, V_ARRAY);
    if Plain(s, p).ok { OrRuns(g, first, V_STRING, s, p); } else { SkipsFailed(g, first, V_STRING, s, p); }
    OrRuns(g, str, V_ARRAY, s, p);
    OrRuns(g, arr, V_OBJECT, s, p);
  }

  lemma NumberMisses(s: string, p: nat)
    requires p < |s| && (s[p] == '"' || s[p] == '[' || s[p] == '{')
    ensures Plain(s, p) == No(p)
  {
  }

  /** What the last alternatives make of a part that has stopped at `t`. */
  function ArrayOrObject(s: string, t: Outcome): Outcome
    requires t.pos <= |s|
  {
    var a := Then(t, ReadArray(s, t.pos).o);
    if a.ok then a else Then(a, ReadObject(s, a.pos).o)
  }

  lemma ReadsQuoted(s: string, p: nat)
    requires p < |s| && s[p] == '"'
    ensures var x := QuotedRun(s, p, STRING_VALUE).o;
      ReadValue(s, p).o == if x.ok then x else ArrayOrObject(s, x)
  {
  }

  lemma ReadsUnquoted(s: string, p: nat)
    requires p <= |s| && (p < |s| ==> s[p] != '"')
    ensures ReadValue(s, p).o == if Plain(s, p).ok then Plain(s, p) else ArrayOrObject(s, No(p))
  {
    EmptyFirst(ReadArray(s, p).o);
    EmptyFirst(ReadObject(s, p).o);
    if p < |s| && s[p] == '[' { EmptyFirst(Then(ReadArray(s, p).o, ReadObject(s, ReadArray(s, p).o.pos).o)); }
    if p < |s| && (s[p] == '[' || s[p] == '{') { NumberMisses(s, p); }
  }

  lemma EmptyFirst(o: Outcome)
    ensures forall p :: Then(No(p), o) == o
  {
    assert [] + o.trace == o.trace;
  }

  /** On every text, the value rule has the verdict, the position and the calls of the reader. */
  lemma {:induction false} ValueIs(g: Grammar, s: string, p: nat)
    requires Ready(g) && p <= |s|
    ensures Eval(g, VALUE, s, p) == ReadValue(s, p).o
    decreases |s| - p, 1
  {
    if p < |s| && s[p] == '"' {
      var t := QuotedRun(s, p, STRING_VALUE).o;
      if !t.ok { LastTwo(g, s, t); }
      assert Eval(g, VALUE, s, p) == if t.ok then t else ArrayOrObject(s, t) by {
        NumberMisses(s, p);
        StringIs(g, s, p);
        ValueSplits(g, s, p);
        EmptyFirst(t);
      }
      ReadsQuoted(s, p);
    } else {
      var t := Plain(s, p);
      if !t.ok { LastTwo(g, s, t); }
      assert Eval(g, VALUE, s, p) == if t.ok then t else ArrayOrObject(s, t) by {
        StringIs(g, s, p);
        ValueSplits(g, s, p);
      }
      ReadsUnquoted(s, p);
    }
  }

  lemma {:induction false} LastTwo(g: Grammar, s: string, t: Outcome)
    requires Ready(g) && t.pos <= |s|
    ensures var a := Then(t, Eval(g, V_ARRAY, s, t.pos));
      ArrayOrObject(s, t) == if a.ok then a else Then(a, Eval(g, V_OBJECT, s, a.pos))
    decreases |s| - t.pos, 0, 1
  {
    ArrayIs(g, s, t.pos);
    ObjectIs(g, s, ReadArray(s, t.pos).o.pos);
  }

  lemma {:induction false} ArrayIs(g: Grammar, s: string, p: nat)
    requires Ready(g) && p <= |s|
    ensures Eval(g, V_ARRAY, s, p) == ReadArray(s, p).o
    decreases |s| - p, 0, 0
  {
    if p == |s| || s[p] != '[' {
      ArrayFails(g, s, p);
    } else {
      var q := RunEnd(Space, s, p + 1);
      ItemsAre(g, s, q);
      PartRuns(g, V_ARRAY, s, p);
      ClosedIs(g, '[', ARRAY_BEGIN, Maybe(ITEM), ']', ARRAY_END, s, p, ReadItems(s, q));
    }
  }

  lemma {:induction false} ObjectIs(g: Grammar, s: string, p: nat)
    requires Ready(g) && p <= |s|
    ensures Eval(g, V_OBJECT, s, p) == ReadObject(s, p).o
    decreases |s| - p, 0, 0
  {
    if p == |s| || s[p] != '{' {
      ObjectFails(g, s, p);
    } else {
      var q := RunEnd(Space, s, p + 1);
      MembersAre(g, s, q);
      PartRuns(g, V_OBJECT, s, p);
      ClosedIs(g, '{', OBJ_BEGIN, Maybe(MEMBER), '}', OBJ_END, s, p, ReadMembers(s, q));
    }
  }

  lemma {:induction false} ItemsAre(g: Grammar, s: string, q: nat)
    requires Ready(g) && q <= |s|
    ensures Productive(g, Maybe(ITEM)) && Eval(g, Maybe(ITEM), s, q) == ReadItems(s, q).o
    decreases |s| - q, 2
  {
    var head := And3(Extractor(Not(Char(']')), ARRAY_ITEM), VALUE, WS);
    ListRuns(g, ITEM, head, MORE_ITEMS, s, q);
    ValueIs(g, s, q);
    ItemIs(g, s, q);
    var h := ReadItem(s, q).o;
    if GoesOn(s, h) { ItemsAre(g, s, Next(s, h.pos)); }
  }

  lemma {:induction false} MembersAre(g: Grammar, s: string, q: nat)
    requires Ready(g) && q <= |s|
    ensures Productive(g, Maybe(MEMBER)) && Eval(g, Maybe(MEMBER), s, q) == ReadMembers(s, q).o
    decreases |s| - q, 2
  {
    var head := And5(IDENTIFIER, WS, Char(':'), WS, VALUE);
    ListRuns(g, MEMBER, head, MORE_MEMBERS, s, q);
    var b := ValueStart(s, q);
    if b != q { ValueIs(g, s, b); }
    MemberIs(g, s, q);
    var h := ReadMember(s, q).o;
    if GoesOn(s, h) { MembersAre(g, s, Next(s, h.pos)); }
  }
}
