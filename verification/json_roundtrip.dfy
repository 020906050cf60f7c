/** Printing a value and parsing the text gives the value back. */
module JsonRoundTrip {
  import opened Grammars
  import opened Engine
  import opened EngineLaws
  import opened JsonGrammar
  import opened JsonMatching
  import opened Json
  import opened Builder
  import opened JsonParse

  // ---- which strings survive ----

  predicate AllPrint(x: string) { forall ch :: ch in x ==> IsPrint(ch) }

  /** Plain characters and complete escapes; at the very end also a bare `\u`. */
  predicate WellSpelled(x: string)
  {
    if x == "" then true
    else if x[0] == '"' then false
    else if x[0] != '\\' then WellSpelled(x[1..])
    else if |x| == 1 then false
    else if x[1] in ESCAPED then WellSpelled(x[2..])
    else if x[1] != 'u' then false
    else if FourHex(x, 2) then WellSpelled(x[6..])
    else |x| == 2
  }

  lemma QuotedAt(x: string, s: string, p: nat)
    requires p <= |s| && HasAt(s, p, x + "\"")
    ensures p + |x| < |s| && s[p + |x|] == '"' && forall i :: 0 <= i < |x| ==> s[p + i] == x[i]
  {
    assert s[p + |x|] == (x + "\"")[|x|];
    assert forall i :: 0 <= i < |x| ==> s[p + i] == (x + "\"")[i];
  }

  lemma QuotedStart(x: string, s: string, p: nat)
    requires p <= |s| && HasAt(s, p, x + "\"")
    ensures p + |x| < |s| && s[p + |x|] == '"' && (x != "" ==> s[p] == x[0]) && (|x| > 1 ==> s[p + 1] == x[1])
  {
    QuotedAt(x, s, p);
    if x != "" { assert s[p + 0] == x[0]; }
  }

  lemma HexInside(x: string, s: string, p: nat)
    requires p <= |s| && HasAt(s, p, x + "\"") && |x| >= 2
    ensures FourHex(s, p + 2) <==> FourHex(x, 2)
  {
    QuotedAt(x, s, p);
    if |x| < 6 {
      assert !IsHex(s[p + |x|]);
    } else {
      assert forall i :: p + 2 <= i < p + 6 ==> s[i] == x[i - p];
      assert forall i :: 2 <= i < 6 ==> x[i] == s[p + i];
    }
  }

  /** Between quotes, the run of characters stops at the closing quote for exactly these strings. */
  lemma {:induction false} ScanStopsAtQuote(x: string, s: string, p: nat)
    requires p <= |s| && HasAt(s, p, x + "\"")
    ensures Scan(s, p) == p + |x| <==> WellSpelled(x)
    decreases |x|
  {
    QuotedStart(x, s, p);
    if x == "" || x[0] == '"' {
    } else if x[0] != '\\' {
      Drop(x, s, p, 1);
      ScanStopsAtQuote(x[1..], s, p + 1);
    } else if |x| == 1 {
      assert s[p + 1] in ESCAPED;
    } else if x[1] in ESCAPED {
      Drop(x, s, p, 2);
      ScanStopsAtQuote(x[2..], s, p + 2);
    } else if x[1] == 'u' {
      HexInside(x, s, p);
      if FourHex(x, 2) {
        Drop(x, s, p, 6);
        ScanStopsAtQuote(x[6..], s, p + 6);
      }
    }
  }

  lemma Drop(x: string, s: string, p: nat, n: nat)
    requires p <= |s| && HasAt(s, p, x + "\"") && n <= |x|
    ensures HasAt(s, p + n, x[n..] + "\"")
  {
    assert (x + "\"")[n..] == x[n..] + "\"";
    assert s[p + n..p + |x| + 1] == s[p..p + |x| + 1][n..];
  }

  lemma {:induction false} EscapedKeepsPrintable(x: string)
    ensures AllPrint(x) ==> Escaped(x, false) == x
  {
    if x != "" && AllPrint(x) {
      assert x == [x[0]] + x[1..];
      EscapedKeepsPrintable(x[1..]);
    }
  }

  /** Anything else gets longer. */
  lemma {:induction false} EscapedGrows(x: string, unicode: bool)
    ensures |Escaped(x, unicode)| >= |x|
    ensures !unicode && !AllPrint(x) ==> |Escaped(x, unicode)| > |x|
  {
    if x != "" {
      EscapedGrows(x[1..], unicode || Coded(x[0]));
      assert x == [x[0]] + x[1..];
    }
  }

  // ---- which values survive ----

  /** Every string is printable and well spelled, every key is well spelled. There are no doubles,
      whose printing is not part of this model, and no null pointers in an array. */
  predicate Spelled(v: Value)
  {
    match v
    case Double(_) => false
    case String(x) => AllPrint(x) && WellSpelled(x)
    case Array(items) => SpelledItems(items)
    case Object(members) => SpelledMembers(members)
    case _ => true
  }

  predicate SpelledItems(items: seq<Value>)
  {
    items == [] || (items[0] != Nil && Spelled(items[0]) && SpelledItems(items[1..]))
  }

  /** Keys are printed as they are, so they need not be printable. */
  predicate SpelledMembers(members: seq<Member>)
  {
    members == [] || (WellSpelled(members[0].key) && Spelled(members[0].value) && SpelledMembers(members[1..]))
  }

  predicate Faithful(v: Value) { Spelled(v) && NumbersFit(v) }

  /** The value itself comes back when its objects are what a std::map can hold and it has no
      null pointers, which are printed as `null`. */
  predicate Canonical(v: Value)
  {
    match v
    case Nil => false
    case Array(items) => forall x :: x in items ==> Canonical(x)
    case Object(members) => Ascending(members) && forall m :: m in members ==> Canonical(m.value)
    case _ => true
  }

  lemma {:induction false} CanonicalIsStored(v: Value)
    requires Canonical(v)
    ensures Stored(v) == v
    decreases v
  {
    match v
    case Array(items) => CanonicalItems(items);
    case Object(members) => assert [] + members == members; CanonicalMembers([], members);
    case _ =>
  }

  lemma {:induction false} CanonicalItems(items: seq<Value>)
    requires forall x :: x in items ==> Canonical(x)
    ensures StoredItems(items) == items
    decreases items
  {
    if items != [] {
      CanonicalIsStored(items[0]);
      CanonicalItems(items[1..]);
    }
  }

  lemma {:induction false} CanonicalMembers(done: seq<Member>, members: seq<Member>)
    requires Ascending(done + members) && forall m :: m in members ==> Canonical(m.value)
    ensures StoredMembers(done, members) == done + members
    decreases members
  {
    if members == [] {
      assert done + members == done;
    } else {
      var m := members[0];
      assert m in members;
      CanonicalIsStored(m.value);
      AscendingPrefix(done, members);
      InsertAtEnd(done, m);
      assert (done + [m]) + members[1..] == done + members;
      CanonicalMembers(done + [m], members[1..]);
    }
  }

  lemma {:induction false} AscendingPrefix(done: seq<Member>, members: seq<Member>)
    requires Ascending(done + members) && members != []
    ensures Ascending(done + [members[0]])
    decreases done
  {
    if done != [] {
      assert (done + members)[1..] == done[1..] + members;
      AscendingPrefix(done[1..], members);
      assert (done + [members[0]])[1..] == done[1..] + [members[0]];
      assert (done + [members[0]])[1] == (done + members)[1];
    }
  }

  /** The next key of an ascending sequence is stored at the end. */
  lemma {:induction false} InsertAtEnd(done: seq<Member>, m: Member)
    requires Ascending(done + [m])
    ensures Insert(done, m.key, m.value) == done + [m]
    ensures forall d :: d in done ==> Less(d.key, m.key)
  {
    if done != [] {
      var whole := done + [m];
      assert whole[1..] == done[1..] + [m];
      InsertAtEnd(done[1..], m);
      if |done| > 1 {
        assert whole[1] == done[1] && done[1] in done[1..];
        LessIsTransitive(done[0].key, done[1].key, m.key);
      }
      LessIsStrictAndTotal(done[0].key, m.key);
      assert done == [done[0]] + done[1..];
    }
  }

  // ---- text ----

  /** The first character of a printed value is none of those that the grammar looks for, or
      skips, before a value. */
  predicate Leads(ch: char) { !InClass(Space, ch) && ch != ']' && ch != '}' && ch != ',' }

  lemma TextLeads(v: Value)
    requires !v.Double?
    ensures Text(v) != "" && Leads(Text(v)[0])
  {
    if v.Int? && v.i >= 0 { DecimalDigits(v.i); assert Decimal(v.i)[0] in Decimal(v.i); }
  }

  lemma SplitAt(s: string, p: nat, a: string, b: string)
    requires p <= |s|
    ensures HasAt(s, p, a + b) <==> p + |a| <= |s| && HasAt(s, p, a) && HasAt(s, p + |a|, b)
  {
    if p + |a| + |b| <= |s| {
      assert s[p..p + |a| + |b|] == s[p..p + |a|] + s[p + |a|..p + |a| + |b|];
      if HasAt(s, p, a + b) {
        assert s[p..p + |a|] == (a + b)[..|a|] == a;
        assert s[p + |a|..p + |a| + |b|] == (a + b)[|a|..] == b;
      }
    }
  }

  lemma FirstAt(s: string, p: nat, a: string)
    requires p <= |s| && HasAt(s, p, a) && a != ""
    ensures p < |s| && s[p] == a[0]
  {
    assert s[p..p + |a|][0] == a[0];
  }

  /** What follows a number must not look like more of it. */
  predicate NumberEnds(s: string, q: nat)
    requires q <= |s|
  {
    q < |s| ==> !IsDigit(s[q]) && s[q] != '.' && s[q] != 'e'
  }

  lemma {:induction false} DigitRun(s: string, p: nat, ds: string)
    requires p <= |s| && HasAt(s, p, ds) && NumberEnds(s, p + |ds|)
    requires forall ch :: ch in ds ==> IsDigit(ch)
    ensures RunEnd(Digit, s, p) == p + |ds|
    decreases |ds|
  {
    if ds != "" {
      assert s[p] == s[p..p + |ds|][0] == ds[0];
      assert s[p + 1..p + |ds|] == s[p..p + |ds|][1..] == ds[1..];
      assert ds[0] in ds;
      DigitRun(s, p + 1, ds[1..]);
    }
  }

  lemma DecimalRun(s: string, p: nat, n: int)
    requires p <= |s| && HasAt(s, p, Decimal(n)) && NumberEnds(s, p + |Decimal(n)|)
    ensures var d := SignEnd(s, p); d < RunEnd(Digit, s, d) == p + |Decimal(n)|
  {
    if n < 0 {
      assert Decimal(n) == "-" + Decimal(-n);
      SignedRun(s, p, -n, Decimal(n));
    } else {
      NaturalRun(s, p, n);
    }
  }

  lemma SignedRun(s: string, p: nat, n: nat, text: string)
    requires text == "-" + Decimal(n)
    requires p <= |s| && HasAt(s, p, text) && NumberEnds(s, p + |text|)
    ensures var d := SignEnd(s, p); d < RunEnd(Digit, s, d) == p + |text|
  {
    SplitAt(s, p, "-", Decimal(n));
    FirstAt(s, p, "-");
    NaturalRun(s, p + 1, n);
    assert SignEnd(s, p) == p + 1;
  }

  lemma NaturalRun(s: string, p: nat, n: nat)
    requires p <= |s| && HasAt(s, p, Decimal(n)) && NumberEnds(s, p + |Decimal(n)|)
    ensures SignEnd(s, p) == p < RunEnd(Digit, s, p) == p + |Decimal(n)|
  {
    DecimalDigits(n);
    var ds := Decimal(n);
    assert s[p] == s[p..p + |ds|][0] == ds[0] && ds[0] in ds;
    DigitRun(s, p, ds);
  }

  // ---- white space ----

  /** What may stand between the parts of a text. */
  predicate IsGap(gap: string) { forall ch :: ch in gap ==> IsWhite(ch) }

  lemma {:induction false} GapSkips(s: string, p: nat, gap: string)
    requires p <= |s| && HasAt(s, p, gap) && IsGap(gap)
    ensures p + |gap| <= |s| && RunEnd(Space, s, p) == RunEnd(Space, s, p + |gap|)
    decreases gap
  {
    if gap != "" {
      FirstAt(s, p, gap);
      assert gap[0] in gap;
      SpaceIsWhite(gap[0]);
      assert gap == [gap[0]] + gap[1..];
      SplitAt(s, p, [gap[0]], gap[1..]);
      GapSkips(s, p + 1, gap[1..]);
    }
  }

  lemma GapRun(s: string, p: nat, gap: string)
    requires p <= |s| && HasAt(s, p, gap) && IsGap(gap)
    requires p + |gap| < |s| ==> !IsWhite(s[p + |gap|])
    ensures p + |gap| <= |s| && RunEnd(Space, s, p) == p + |gap|
  {
    GapSkips(s, p, gap);
    if p + |gap| < |s| { SpaceIsWhite(s[p + |gap|]); }
  }

  // ---- which alternative a first character selects ----

  lemma BracketFailsEarly(g: Grammar, c: char, a: ActionId, b: Rule, d: Rule, e: Rule, s: string, p: nat)
    requires Ready(g) && p <= |s| && Productive(g, And5(Extractor(Char(c), a), WS, b, d, e)) && (p < |s| ==> s[p] != c)
    ensures Eval(g, And5(Extractor(Char(c), a), WS, b, d, e), s, p) == No(p)
  {
    And5Runs(g, Extractor(Char(c), a), WS, b, d, e, s, p);
    ExtractorRuns(g, Char(c), a, s, p);
  }

  lemma WordFails(g: Grammar, w: string, a: ActionId, s: string, p: nat)
    requires Ready(g) && p <= |s| && w != "" && (p < |s| ==> s[p] != w[0])
    ensures Eval(g, Extractor(Literal(w), a), s, p) == No(p)
  {
    ExtractorRuns(g, Literal(w), a, s, p);
  }

  // Every alternative fails in place unless the first character is one of its own.

  lemma NullFails(g: Grammar, s: string, p: nat)
    requires Ready(g) && p <= |s| && (p < |s| ==> s[p] != 'n')
    ensures Eval(g, V_NULL, s, p) == No(p)
  {
    PartRuns(g, V_NULL, s, p);
    WordFails(g, "null", NULL_VALUE, s, p);
  }

  lemma BoolFails(g: Grammar, s: string, p: nat)
    requires Ready(g) && p <= |s| && (p < |s| ==> s[p] != 't' && s[p] != 'f')
    ensures Eval(g, V_BOOL, s, p) == No(p)
  {
    PartRuns(g, V_BOOL, s, p);
    OrRuns(g, Extractor(Literal("true"), TRUE_VALUE), Extractor(Literal("false"), FALSE_VALUE), s, p);
    WordFails(g, "true", TRUE_VALUE, s, p);
    WordFails(g, "false", FALSE_VALUE, s, p);
  }

  lemma StringFails(g: Grammar, s: string, p: nat)
    requires Ready(g) && p <= |s| && (p < |s| ==> s[p] != '"')
    ensures Eval(g, V_STRING, s, p) == No(p)
  {
    PartRuns(g, V_STRING, s, p);
    QuotedRuns(g, STRING_VALUE, s, p);
  }

  lemma ArrayFails(g: Grammar, s: string, p: nat)
    requires Ready(g) && p <= |s| && (p < |s| ==> s[p] != '[')
    ensures Eval(g, V_ARRAY, s, p) == No(p)
  {
    PartRuns(g, V_ARRAY, s, p);
    BracketFailsEarly(g, '[', ARRAY_BEGIN, Maybe(ITEM), WS, Extractor(Char(']'), ARRAY_END), s, p);
  }

  lemma ObjectFails(g: Grammar, s: string, p: nat)
    requires Ready(g) && p <= |s| && (p < |s| ==> s[p] != '{')
    ensures Eval(g, V_OBJECT, s, p) == No(p)
  {
    PartRuns(g, V_OBJECT, s, p);
    BracketFailsEarly(g, '{', OBJ_BEGIN, Maybe(MEMBER), WS, Extractor(Char('}'), OBJ_END), s, p);
  }

  lemma NumbersFail(g: Grammar, s: string, p: nat)
    requires Ready(g) && p <= |s| && (p < |s| ==> s[p] != '+' && s[p] != '-' && !InClass(Digit, s[p]))
    ensures Eval(g, V_DOUBLE, s, p) == No(p) && Eval(g, V_INT, s, p) == No(p)
  {
    VIntRuns(g, s, p);
    VDoubleFails(g, s, p);
  }

  /** The value rule does what its k-th alternative does, when that is the one selected. */
  lemma Selects(g: Grammar, s: string, p: nat, k: nat)
    requires Ready(g) && p <= |s| && k < 7
    requires forall j :: 0 <= j < k ==> Eval(g, VALUES[j], s, p) == No(p)
    requires Eval(g, VALUES[k], s, p).ok
    ensures Eval(g, VALUE, s, p) == Eval(g, VALUES[k], s, p)
  {
    PartRuns(g, VALUE, s, p);
    FirstMatch(g, VALUES, s, p, k);
  }

  lemma SelectsBool(g: Grammar, s: string, p: nat)
    requires Ready(g) && p < |s| && s[p] != 'n' && Eval(g, V_BOOL, s, p).ok
    ensures Eval(g, VALUE, s, p) == Eval(g, V_BOOL, s, p)
  {
    NullFails(g, s, p);
    Selects(g, s, p, 1);
  }

  lemma WordsFail(g: Grammar, s: string, p: nat)
    requires Ready(g) && p <= |s| && (p < |s| ==> s[p] != 'n' && s[p] != 't' && s[p] != 'f')
    ensures Eval(g, V_NULL, s, p) == No(p) && Eval(g, V_BOOL, s, p) == No(p)
  {
    NullFails(g, s, p);
    BoolFails(g, s, p);
  }

  lemma SelectsInt(g: Grammar, s: string, p: nat)
    requires Ready(g) && p < |s| && s[p] != 'n' && s[p] != 't' && s[p] != 'f'
    requires Eval(g, V_DOUBLE, s, p) == No(p) && Eval(g, V_INT, s, p).ok
    ensures Eval(g, VALUE, s, p) == Eval(g, V_INT, s, p)
  {
    WordsFail(g, s, p);
    Selects(g, s, p, 3);
  }

  lemma SelectsString(g: Grammar, s: string, p: nat)
    requires Ready(g) && p < |s| && s[p] == '"' && Eval(g, V_STRING, s, p).ok
    ensures Eval(g, VALUE, s, p) == Eval(g, V_STRING, s, p)
  {
    WordsFail(g, s, p);
    NumbersFail(g, s, p);
    Selects(g, s, p, 4);
  }

  lemma SelectsArray(g: Grammar, s: string, p: nat)
    requires Ready(g) && p < |s| && s[p] == '[' && Eval(g, V_ARRAY, s, p).ok
    ensures Eval(g, VALUE, s, p) == Eval(g, V_ARRAY, s, p)
  {
    WordsFail(g, s, p);
    NumbersFail(g, s, p);
    StringFails(g, s, p);
    Selects(g, s, p, 5);
  }

  lemma SelectsObject(g: Grammar, s: string, p: nat)
    requires Ready(g) && p < |s| && s[p] == '{' && Eval(g, V_OBJECT, s, p).ok
    ensures Eval(g, VALUE, s, p) == Eval(g, V_OBJECT, s, p)
  {
    WordsFail(g, s, p);
    NumbersFail(g, s, p);
    StringFails(g, s, p);
    ArrayFails(g, s, p);
    Selects(g, s, p, 6);
  }

  // ---- how the bracketed and listed parts run on text without white space ----

  lemma NoWs(g: Grammar, s: string, p: nat)
    requires Ready(g) && p <= |s| && (p < |s| ==> !InClass(Space, s[p]))
    ensures Eval(g, WS, s, p) == Yes(p)
  {
    WsRuns(g, s, p);
  }

  lemma BracketRuns(g: Grammar, c: char, a1: ActionId, rest: Rule, d: char, a2: ActionId, s: string, p: nat, o: Outcome)
    requires Ready(g) && Productive(g, And5(Extractor(Char(c), a1), WS, Maybe(rest), WS, Extractor(Char(d), a2)))
    requires p + 1 < |s| && s[p] == c && !InClass(Space, s[p + 1]) && !InClass(Space, d)
    requires Productive(g, rest) && Eval(g, rest, s, p + 1) == o && o.pos < |s| && s[o.pos] == d
    ensures Eval(g, And5(Extractor(Char(c), a1), WS, Maybe(rest), WS, Extractor(Char(d), a2)), s, p) ==
            Outcome(true, o.pos + 1, [Fired(a1, p, p + 1)] + o.trace + [Fired(a2, o.pos, o.pos + 1)])
  {
    var open, close := Extractor(Char(c), a1), Extractor(Char(d), a2);
    And5Parts(g, open, WS, Maybe(rest), WS, close);
    FiredChar(g, c, a1, s, p);
    FiredChar(g, d, a2, s, o.pos);
    NoWs(g, s, p + 1);
    NoWs(g, s, o.pos);
    MaybeRuns(g, rest, s, p + 1);
    And5Matches(g, open, WS, Maybe(rest), WS, close, s, p,
                Outcome(true, p + 1, [Fired(a1, p, p + 1)]), p + 1, Outcome(true, o.pos, o.trace), o.pos);
  }

  lemma And5Parts(g: Grammar, a: Rule, b: Rule, c: Rule, d: Rule, e: Rule)
    requires Productive(g, And5(a, b, c, d, e))
    ensures Productive(g, a) && Productive(g, b) && Productive(g, c) && Productive(g, d) && Productive(g, e)
  {
    assert Productive(g, And4(a, b, c, d));
    assert Productive(g, And3(a, b, c));
    assert Productive(g, And(a, b));
  }

  lemma FiredChar(g: Grammar, c: char, a: ActionId, s: string, p: nat)
    requires WellFormed(g) && p < |s| && s[p] == c
    ensures Productive(g, Extractor(Char(c), a))
    ensures Eval(g, Extractor(Char(c), a), s, p) == Outcome(true, p + 1, [Fired(a, p, p + 1)])
  {
    ExtractorRuns(g, Char(c), a, s, p);
    assert [] + [Fired(a, p, p + 1)] == [Fired(a, p, p + 1)];
  }

  lemma TailRuns(g: Grammar, rest: Rule, s: string, q: nat)
    requires Ready(g) && Productive(g, Maybe(And3(Char(','), WS, Maybe(rest)))) && Productive(g, rest)
    requires q < |s| && (s[q] == ',' ==> q + 1 < |s| && !InClass(Space, s[q + 1]))
    ensures Eval(g, Maybe(And3(Char(','), WS, Maybe(rest))), s, q) ==
            if s[q] == ',' then var o := Eval(g, rest, s, q + 1); Outcome(true, o.pos, o.trace) else Yes(q)
  {
    MaybeRuns(g, And3(Char(','), WS, Maybe(rest)), s, q);
    And3Runs(g, Char(','), WS, Maybe(rest), s, q);
    if s[q] == ',' {
      NoWs(g, s, q + 1);
      MaybeRuns(g, rest, s, q + 1);
      assert ([] + []) + Eval(g, rest, s, q + 1).trace == Eval(g, rest, s, q + 1).trace;
    }
  }

  lemma ItemRuns(g: Grammar, s: string, p: nat, v: Outcome)
    requires Ready(g) && p < |s| && s[p] != ']'
    requires Eval(g, VALUE, s, p) == v && v.ok && (v.pos < |s| ==> !InClass(Space, s[v.pos]))
    ensures var m := Eval(g, MORE_ITEMS, s, v.pos);
            Eval(g, ITEM, s, p) == Outcome(m.ok, m.pos, [Fired(ARRAY_ITEM, p, p)] + v.trace + m.trace)
  {
    var look := Extractor(Not(Char(']')), ARRAY_ITEM);
    PartRuns(g, ITEM, s, p);
    AndRuns(g, And3(look, VALUE, WS), MORE_ITEMS, s, p);
    And3Runs(g, look, VALUE, WS, s, p);
    ExtractorRuns(g, Not(Char(']')), ARRAY_ITEM, s, p);
    assert Productive(g, Char(']')) && Eval(g, Not(Char(']')), s, p) == Yes(p);
    NoWs(g, s, v.pos);
    assert [] + [Fired(ARRAY_ITEM, p, p)] == [Fired(ARRAY_ITEM, p, p)];
    assert [Fired(ARRAY_ITEM, p, p)] + v.trace + [] == [Fired(ARRAY_ITEM, p, p)] + v.trace;
  }

  /** A member whose key ends before its colon at `c`, with its value right after that. */
  lemma MemberRuns(g: Grammar, s: string, p: nat, c: nat, key: Engine.Event, v: Outcome)
    requires Ready(g) && p <= c && c + 1 < |s| && s[c] == ':' && !InClass(Space, s[c + 1])
    requires Eval(g, IDENTIFIER, s, p) == Outcome(true, c, [key])
    requires Eval(g, VALUE, s, c + 1) == v && v.ok
    ensures var m := Eval(g, MORE_MEMBERS, s, v.pos);
            Eval(g, MEMBER, s, p) == Outcome(m.ok, m.pos, [key] + v.trace + m.trace)
  {
    var head := And5(IDENTIFIER, WS, Char(':'), WS, VALUE);
    PartRuns(g, MEMBER, s, p);
    AndRuns(g, head, MORE_MEMBERS, s, p);
    AndRuns(g, And4(IDENTIFIER, WS, Char(':'), WS), VALUE, s, p);
    NoWs(g, s, c);
    NoWs(g, s, c + 1);
    And5Matches(g, IDENTIFIER, WS, Char(':'), WS, VALUE, s, p, Outcome(true, c, [key]), c, Yes(c + 1), c + 1);
    assert [key] + [] == [key];
  }

  // ---- a printed value is read back, wherever it stands ----

  /** From `p`, rule `r` matches up to `q` and calls for the actions `es`. */
  ghost predicate Reads(g: Grammar, r: Rule, s: string, p: nat, q: nat, es: seq<Builder.Event>)
    requires Ready(g) && p <= |s| && Productive(g, r)
  {
    var o := Eval(g, r, s, p);
    o.ok && o.pos == q && Actions(s, o.trace) == es
  }

  lemma OneAction(s: string, e: Engine.Event)
    ensures Actions(s, [e]) == [Action(s, e)]
  {
    assert [e][1..] == [];
  }

  lemma WordRuns(g: Grammar, w: string, a: ActionId, s: string, p: nat)
    requires Ready(g) && p <= |s| && HasAt(s, p, w)
    ensures Eval(g, Extractor(Literal(w), a), s, p) == Outcome(true, p + |w|, [Fired(a, p, p + |w|)])
  {
    ExtractorRuns(g, Literal(w), a, s, p);
  }

  lemma ReadsNull(g: Grammar, v: Value, s: string, p: nat)
    requires Ready(g) && p <= |s| && (v.Nil? || v.Null?) && HasAt(s, p, Text(v))
    ensures Reads(g, VALUE, s, p, p + |Text(v)|, Events(v))
  {
    PartRuns(g, V_NULL, s, p);
    WordRuns(g, "null", NULL_VALUE, s, p);
    OneAction(s, Fired(NULL_VALUE, p, p + 4));
    Selects(g, s, p, 0);
  }

  lemma BoolRuns(g: Grammar, b: bool, s: string, p: nat)
    requires Ready(g) && p <= |s| && HasAt(s, p, Text(Bool(b)))
    ensures var q := p + |Text(Bool(b))|;
            Eval(g, V_BOOL, s, p) == Outcome(true, q, [Fired(if b then TRUE_VALUE else FALSE_VALUE, p, q)])
  {
    var t, f := Extractor(Literal("true"), TRUE_VALUE), Extractor(Literal("false"), FALSE_VALUE);
    assert Eval(g, V_BOOL, s, p) == Eval(g, Or(t, f), s, p) by { PartRuns(g, V_BOOL, s, p); }
    OrRuns(g, t, f, s, p);
    if b {
      assert HasAt(s, p, "true");
      WordRuns(g, "true", TRUE_VALUE, s, p);
    } else {
      assert HasAt(s, p, "false");
      assert Eval(g, t, s, p) == No(p) by {
        FirstAt(s, p, "false");
        WordFails(g, "true", TRUE_VALUE, s, p);
      }
      WordRuns(g, "false", FALSE_VALUE, s, p);
    }
  }

  lemma ReadsBool(g: Grammar, b: bool, s: string, p: nat)
    requires Ready(g) && p <= |s| && HasAt(s, p, Text(Bool(b)))
    ensures Reads(g, VALUE, s, p, p + |Text(Bool(b))|, Events(Bool(b)))
  {
    FirstAt(s, p, Text(Bool(b)));
    BoolRuns(g, b, s, p);
    SelectsBool(g, s, p);
    OneAction(s, Fired(if b then TRUE_VALUE else FALSE_VALUE, p, p + |Text(Bool(b))|));
  }

  lemma ReadsInt(g: Grammar, i: int, s: string, p: nat)
    requires Ready(g) && p <= |s| && HasAt(s, p, Decimal(i)) && NumberEnds(s, p + |Decimal(i)|)
    ensures Reads(g, VALUE, s, p, p + |Decimal(i)|, Events(Int(i)))
  {
    var q := p + |Decimal(i)|;
    DecimalRun(s, p, i);
    assert p < |s| && (s[p] == '-' || IsDigit(s[p])) by {
      DecimalLeads(i);
      FirstAt(s, p, Decimal(i));
    }
    DigitsRead(g, s, p, q);
    assert s[p..q] == Decimal(i);
  }

  /** A sign or digit, and digits up to `q` that nothing continues. */
  lemma DigitsRead(g: Grammar, s: string, p: nat, q: nat)
    requires Ready(g) && p < |s| && (s[p] == '-' || IsDigit(s[p]))
    requires var d := SignEnd(s, p); d < RunEnd(Digit, s, d) == q && NumberEnds(s, q)
    ensures Reads(g, VALUE, s, p, q, [IntValue(s[p..q])])
  {
    VDoubleFails(g, s, p);
    VIntRuns(g, s, p);
    SelectsInt(g, s, p);
    OneAction(s, Fired(INT_VALUE, p, q));
  }

  lemma DecimalLeads(i: int)
    ensures Decimal(i) != "" && (Decimal(i)[0] == '-' || IsDigit(Decimal(i)[0]))
  {
    if i >= 0 { DecimalDigits(i); assert Decimal(i)[0] in Decimal(i); }
  }

  lemma QuotedText(x: string, s: string, p: nat)
    requires p <= |s| && WellSpelled(x) && HasAt(s, p, "\"" + x + "\"")
    ensures var q := p + 1 + |x|;
            q < |s| && s[p] == '"' && s[q] == '"' && Scan(s, p + 1) == q && s[p + 1..q] == x
  {
    assert "\"" + x + "\"" == "\"" + (x + "\"");
    SplitAt(s, p, "\"", x + "\"");
    SplitAt(s, p + 1, x, "\"");
    FirstAt(s, p, "\"");
    FirstAt(s, p + 1 + |x|, "\"");
    ScanStopsAtQuote(x, s, p + 1);
  }

  lemma StringReads(g: Grammar, s: string, p: nat, q: nat)
    requires Ready(g) && p < |s| && s[p] == '"' && Scan(s, p + 1) == q && q < |s| && s[q] == '"'
    ensures Reads(g, VALUE, s, p, q + 1, [StringValue(s[p + 1..q])])
  {
    PartRuns(g, V_STRING, s, p);
    QuotedRuns(g, STRING_VALUE, s, p);
    SelectsString(g, s, p);
    OneAction(s, Fired(STRING_VALUE, p + 1, q));
  }

  lemma ReadsString(g: Grammar, x: string, s: string, p: nat)
    requires Ready(g) && p <= |s| && AllPrint(x) && WellSpelled(x) && HasAt(s, p, Text(String(x)))
    ensures Reads(g, VALUE, s, p, p + |Text(String(x))|, Events(String(x)))
  {
    EscapedKeepsPrintable(x);
    QuotedText(x, s, p);
    StringReads(g, s, p, p + 1 + |x|);
  }

  /** The character after a printed value must not be taken for more of a number. */
  predicate Follows(v: Value, s: string, q: nat)
    requires q <= |s|
  {
    v.Int? ==> NumberEnds(s, q)
  }

  lemma {:induction false} ReadsValue(g: Grammar, v: Value, s: string, p: nat)
    requires Ready(g) && p <= |s| && Spelled(v) && HasAt(s, p, Text(v)) && Follows(v, s, p + |Text(v)|)
    ensures Reads(g, VALUE, s, p, p + |Text(v)|, Events(v))
    decreases v, 2
  {
    match v
    case Int(i) => ReadsInt(g, i, s, p);
    case String(x) => ReadsString(g, x, s, p);
    case Array(items) => ReadsArray(g, items, s, p);
    case Object(members) => ReadsObject(g, members, s, p);
    case Bool(b) => ReadsBool(g, b, s, p);
    case _ => ReadsNull(g, v, s, p);
  }

  // Arrays.

  lemma BracketedRuns(g: Grammar, s: string, p: nat, o: Outcome)
    requires Ready(g) && p + 1 < |s| && s[p] == '[' && !InClass(Space, s[p + 1])
    requires Eval(g, ITEM, s, p + 1) == o && o.pos < |s| && s[o.pos] == ']'
    ensures Eval(g, V_ARRAY, s, p)
            == Outcome(true, o.pos + 1, [Fired(ARRAY_BEGIN, p, p + 1)] + o.trace + [Fired(ARRAY_END, o.pos, o.pos + 1)])
  {
    PartRuns(g, V_ARRAY, s, p);
    BracketRuns(g, '[', ARRAY_BEGIN, ITEM, ']', ARRAY_END, s, p, o);
  }

  lemma ArrayRuns(g: Grammar, s: string, p: nat, o: Outcome)
    requires Ready(g) && p + 1 < |s| && s[p] == '[' && !InClass(Space, s[p + 1])
    requires Eval(g, ITEM, s, p + 1) == o && o.pos < |s| && s[o.pos] == ']'
    ensures Reads(g, VALUE, s, p, o.pos + 1, [ArrayBegin] + Actions(s, o.trace) + [ArrayEnd])
  {
    BracketedRuns(g, s, p, o);
    SelectsArray(g, s, p);
    BracketActions(s, Fired(ARRAY_BEGIN, p, p + 1), o.trace, Fired(ARRAY_END, o.pos, o.pos + 1));
  }

  lemma BracketActions(s: string, first: Engine.Event, t: seq<Engine.Event>, last: Engine.Event)
    ensures Actions(s, [first] + t + [last]) == [Action(s, first)] + Actions(s, t) + [Action(s, last)]
  {
    ActionsAppend(s, [first] + t, [last]);
    ActionsAppend(s, [first], t);
    OneAction(s, first);
    OneAction(s, last);
  }

  lemma ListActions(s: string, first: Engine.Event, t: seq<Engine.Event>, more: seq<Engine.Event>)
    ensures Actions(s, [first] + t + more) == [Action(s, first)] + Actions(s, t) + Actions(s, more)
  {
    ActionsAppend(s, [first] + t, more);
    ActionsAppend(s, [first], t);
    OneAction(s, first);
  }

  /** The brackets around a body, and what the body starts with. */
  lemma BracketText(open: char, body: string, close: char, s: string, p: nat)
    requires p <= |s| && HasAt(s, p, [open] + body + [close]) && (body != "" ==> !InClass(Space, body[0]))
    requires close == ']' || close == '}'
    ensures var q := p + 1 + |body|;
            q < |s| && s[p] == open && s[q] == close && HasAt(s, p + 1, body) && !InClass(Space, s[p + 1])
  {
    SplitAt(s, p, [open] + body, [close]);
    SplitAt(s, p, [open], body);
    FirstAt(s, p, [open]);
    FirstAt(s, p + 1 + |body|, [close]);
    if body != "" { FirstAt(s, p + 1, body); }
  }

  lemma ItemsTextLeads(items: seq<Value>)
    requires items != [] && !items[0].Double?
    ensures ItemsText(items) != "" && Leads(ItemsText(items)[0])
  {
    TextLeads(items[0]);
  }

  lemma NoItem(g: Grammar, s: string, p: nat)
    requires Ready(g) && p < |s| && s[p] == ']'
    ensures Eval(g, ITEM, s, p) == No(p)
  {
    var look := Extractor(Not(Char(']')), ARRAY_ITEM);
    PartRuns(g, ITEM, s, p);
    AndRuns(g, And3(look, VALUE, WS), MORE_ITEMS, s, p);
    And3Runs(g, look, VALUE, WS, s, p);
    ExtractorRuns(g, Not(Char(']')), ARRAY_ITEM, s, p);
    assert Productive(g, Char(']')) && Eval(g, Not(Char(']')), s, p) == No(p);
  }

  lemma {:induction false} ReadsArray(g: Grammar, items: seq<Value>, s: string, p: nat)
    requires Ready(g) && p <= |s| && SpelledItems(items) && HasAt(s, p, Text(Array(items)))
    ensures Reads(g, VALUE, s, p, p + |Text(Array(items))|, Events(Array(items)))
    decreases items, 2
  {
    if items == [] {
      BracketText('[', "", ']', s, p);
      NoItem(g, s, p + 1);
    } else {
      ItemsTextLeads(items);
      BracketText('[', ItemsText(items), ']', s, p);
      ReadsItems(g, items, s, p + 1);
    }
    ArrayRuns(g, s, p, Eval(g, ITEM, s, p + 1));
  }

  /** An item and what comes after it. */
  lemma ItemReads(g: Grammar, s: string, p: nat, q: nat, r: nat, es: seq<Builder.Event>, more: seq<Builder.Event>)
    requires Ready(g) && p < |s| && s[p] != ']' && q < |s| && !InClass(Space, s[q])
    requires Reads(g, VALUE, s, p, q, es) && Reads(g, MORE_ITEMS, s, q, r, more)
    ensures Reads(g, ITEM, s, p, r, [ArrayItem] + es + more)
  {
    var v, m := Eval(g, VALUE, s, p), Eval(g, MORE_ITEMS, s, q);
    ItemRuns(g, s, p, v);
    ListActions(s, Fired(ARRAY_ITEM, p, p), v.trace, m.trace);
  }

  /** `value_in_array` on the items that are left. */
  lemma {:induction false} ReadsItems(g: Grammar, items: seq<Value>, s: string, p: nat)
    requires Ready(g) && p <= |s| && items != [] && HasAt(s, p, ItemsText(items))
    requires SpelledItems(items)
    requires p + |ItemsText(items)| < |s| && s[p + |ItemsText(items)|] == ']'
    ensures Reads(g, ITEM, s, p, p + |ItemsText(items)|, ItemEvents(items))
    decreases items, 0
  {
    var x, rest := items[0], items[1..];
    var q := p + |Text(x)|;
    SplitAt(s, p, Text(x), MoreItemsText(rest));
    AfterValue(MoreItemsText(rest), ']', s, q);
    TextLeads(x);
    FirstAt(s, p, Text(x));
    ReadsValue(g, x, s, p);
    ReadsMoreItems(g, rest, s, q);
    ItemReads(g, s, p, q, q + |MoreItemsText(rest)|, Events(x), ItemEvents(rest));
  }

  /** What follows a value inside a container: a comma, or the closing bracket. */
  lemma AfterValue(more: string, close: char, s: string, q: nat)
    requires q <= |s| && HasAt(s, q, more) && (more == "" || more[0] == ',')
    requires q + |more| < |s| && s[q + |more|] == close && (close == ']' || close == '}')
    ensures s[q] == (if more == "" then close else ',') && NumberEnds(s, q) && !InClass(Space, s[q])
  {
    if more != "" { FirstAt(s, q, more); }
  }

  lemma TailReads(g: Grammar, tail: Rule, rest: Rule, s: string, q: nat)
    requires Ready(g) && q < |s| && (s[q] == ',' ==> q + 1 < |s| && !InClass(Space, s[q + 1]))
    requires (tail == MORE_ITEMS && rest == ITEM) || (tail == MORE_MEMBERS && rest == MEMBER)
    ensures s[q] != ',' ==> Reads(g, tail, s, q, q, [])
    ensures s[q] == ',' ==> forall r, es :: Reads(g, rest, s, q + 1, r, es) ==> Reads(g, tail, s, q, r, es)
  {
    PartRuns(g, tail, s, q);
    TailRuns(g, rest, s, q);
  }

  lemma {:induction false} ReadsMoreItems(g: Grammar, items: seq<Value>, s: string, q: nat)
    requires Ready(g) && q <= |s| && HasAt(s, q, MoreItemsText(items))
    requires SpelledItems(items)
    requires q + |MoreItemsText(items)| < |s| && s[q + |MoreItemsText(items)|] == ']'
    ensures Reads(g, MORE_ITEMS, s, q, q + |MoreItemsText(items)|, ItemEvents(items))
    decreases items, 1
  {
    AfterValue(MoreItemsText(items), ']', s, q);
    if items != [] {
      var body := ItemsText(items);
      assert MoreItemsText(items) == "," + body;
      SplitAt(s, q, ",", body);
      ItemsTextLeads(items);
      FirstAt(s, q + 1, body);
      ReadsItems(g, items, s, q + 1);
    }
    TailReads(g, MORE_ITEMS, ITEM, s, q);
  }

  // Objects.

  lemma BracedRuns(g: Grammar, s: string, p: nat, o: Outcome)
    requires Ready(g) && p + 1 < |s| && s[p] == '{' && !InClass(Space, s[p + 1])
    requires Eval(g, MEMBER, s, p + 1) == o && o.pos < |s| && s[o.pos] == '}'
    ensures Eval(g, V_OBJECT, s, p)
            == Outcome(true, o.pos + 1, [Fired(OBJ_BEGIN, p, p + 1)] + o.trace + [Fired(OBJ_END, o.pos, o.pos + 1)])
  {
    PartRuns(g, V_OBJECT, s, p);
    BracketRuns(g, '{', OBJ_BEGIN, MEMBER, '}', OBJ_END, s, p, o);
  }

  lemma ObjectRuns(g: Grammar, s: string, p: nat, o: Outcome)
    requires Ready(g) && p + 1 < |s| && s[p] == '{' && !InClass(Space, s[p + 1])
    requires Eval(g, MEMBER, s, p + 1) == o && o.pos < |s| && s[o.pos] == '}'
    ensures Reads(g, VALUE, s, p, o.pos + 1, [ObjectBegin] + Actions(s, o.trace) + [ObjectEnd])
  {
    BracedRuns(g, s, p, o);
    SelectsObject(g, s, p);
    BracketActions(s, Fired(OBJ_BEGIN, p, p + 1), o.trace, Fired(OBJ_END, o.pos, o.pos + 1));
  }

  lemma NoMember(g: Grammar, s: string, p: nat)
    requires Ready(g) && p < |s| && s[p] == '}'
    ensures Eval(g, MEMBER, s, p) == No(p)
  {
    var head := And5(IDENTIFIER, WS, Char(':'), WS, VALUE);
    PartRuns(g, MEMBER, s, p);
    AndRuns(g, head, MORE_MEMBERS, s, p);
    assert Eval(g, IDENTIFIER, s, p) == No(p) by {
      PartRuns(g, IDENTIFIER, s, p);
      QuotedRuns(g, OBJ_ITEM, s, p);
    }
    And5Runs(g, IDENTIFIER, WS, Char(':'), WS, VALUE, s, p);
  }

  lemma MembersTextLeads(members: seq<Member>)
    requires members != []
    ensures MembersText(members) != "" && MembersText(members)[0] == '"'
  {
    assert MemberText(members[0])[0] == '"';
  }

  lemma {:induction false} ReadsObject(g: Grammar, members: seq<Member>, s: string, p: nat)
    requires Ready(g) && p <= |s| && SpelledMembers(members) && HasAt(s, p, Text(Object(members)))
    ensures Reads(g, VALUE, s, p, p + |Text(Object(members))|, Events(Object(members)))
    decreases members, 3
  {
    if members == [] {
      BracketText('{', "", '}', s, p);
      NoMember(g, s, p + 1);
    } else {
      MembersTextLeads(members);
      BracketText('{', MembersText(members), '}', s, p);
      ReadsMembers(g, members, s, p + 1);
    }
    ObjectRuns(g, s, p, Eval(g, MEMBER, s, p + 1));
  }

  lemma KeyRuns(g: Grammar, s: string, p: nat, e: nat)
    requires Ready(g) && p < |s| && s[p] == '"' && Scan(s, p + 1) == e && e < |s| && s[e] == '"'
    ensures Eval(g, IDENTIFIER, s, p) == Outcome(true, e + 1, [Fired(OBJ_ITEM, p + 1, e)])
  {
    PartRuns(g, IDENTIFIER, s, p);
    QuotedRuns(g, OBJ_ITEM, s, p);
  }

  /** A member and what comes after it: its key ends at `e`, its value is from `e + 2` to `q`. */
  lemma MemberReads(g: Grammar, s: string, p: nat, e: nat, q: nat, r: nat, es: seq<Builder.Event>,
                    more: seq<Builder.Event>)
    requires Ready(g) && p < e && e + 2 < |s| && s[e + 1] == ':'
    requires Eval(g, IDENTIFIER, s, p) == Outcome(true, e + 1, [Fired(OBJ_ITEM, p + 1, e)])
    requires !InClass(Space, s[e + 2]) && Reads(g, VALUE, s, e + 2, q, es)
    requires q <= |s| && Reads(g, MORE_MEMBERS, s, q, r, more)
    ensures Reads(g, MEMBER, s, p, r, [ObjectItem(s[p + 1..e])] + es + more)
  {
    var key := Fired(OBJ_ITEM, p + 1, e);
    assert Action(s, key) == ObjectItem(s[p + 1..e]);
    MemberRuns(g, s, p, e + 1, key, Eval(g, VALUE, s, e + 2));
    ListActions(s, key, Eval(g, VALUE, s, e + 2).trace, Eval(g, MORE_MEMBERS, s, q).trace);
  }

  lemma {:induction false} FirstValueReads(g: Grammar, members: seq<Member>, s: string, b: nat, q: nat)
    requires Ready(g) && members != [] && SpelledMembers(members) && b <= q <= |s|
    requires var t := Text(members[0].value); HasAt(s, b, t) && q == b + |t| && NumberEnds(s, q)
    ensures Reads(g, VALUE, s, b, q, Events(members[0].value))
    decreases members, 0
  {
    ReadsValue(g, members[0].value, s, b);
  }

  /** `value_in_obj` on the members that are left. */
  lemma {:induction false} ReadsMembers(g: Grammar, members: seq<Member>, s: string, p: nat)
    requires Ready(g) && p <= |s| && members != [] && HasAt(s, p, MembersText(members))
    requires SpelledMembers(members)
    requires p + |MembersText(members)| < |s| && s[p + |MembersText(members)|] == '}'
    ensures Reads(g, MEMBER, s, p, p + |MembersText(members)|, MemberEvents(members))
    decreases members, 1
  {
    var e, q := MembersAt(members, s, p);
    FirstValueReads(g, members, s, e + 2, q);
    ReadsMoreMembers(g, members[1..], s, q);
    FirstMemberReads(g, members, s, p, e, q, p + |MembersText(members)|);
  }

  lemma FirstMemberReads(g: Grammar, members: seq<Member>, s: string, p: nat, e: nat, q: nat, r: nat)
    requires Ready(g) && members != [] && p < e && e + 2 < |s| && s[p] == '"' && s[e] == '"' && s[e + 1] == ':'
    requires Scan(s, p + 1) == e && s[p + 1..e] == members[0].key && !InClass(Space, s[e + 2]) && q <= |s|
    requires Reads(g, VALUE, s, e + 2, q, Events(members[0].value))
    requires Reads(g, MORE_MEMBERS, s, q, r, MemberEvents(members[1..]))
    ensures Reads(g, MEMBER, s, p, r, MemberEvents(members))
  {
    KeyedMemberReads(g, s, p, e, q, r, Events(members[0].value), MemberEvents(members[1..]));
    EventsOfFirst(members);
  }

  lemma EventsOfFirst(members: seq<Member>)
    requires members != []
    ensures MemberEvents(members)
      == [ObjectItem(members[0].key)] + Events(members[0].value) + MemberEvents(members[1..])
  {
  }

  lemma KeyedMemberReads(g: Grammar, s: string, p: nat, e: nat, q: nat, r: nat, es: seq<Builder.Event>,
                         more: seq<Builder.Event>)
    requires Ready(g) && p < e && e + 2 < |s| && s[p] == '"' && s[e] == '"' && s[e + 1] == ':' && Scan(s, p + 1) == e
    requires !InClass(Space, s[e + 2]) && Reads(g, VALUE, s, e + 2, q, es)
    requires q <= |s| && Reads(g, MORE_MEMBERS, s, q, r, more)
    ensures Reads(g, MEMBER, s, p, r, [ObjectItem(s[p + 1..e])] + es + more)
  {
    KeyRuns(g, s, p, e);
    MemberReads(g, s, p, e, q, r, es, more);
  }

  /** The pieces of a key, a value `t` and `more` after it: the key ends at `e`, the value at `q`. */
  lemma PiecesAt(key: string, t: string, more: string, s: string, p: nat) returns (e: nat, q: nat)
    requires p <= |s| && t != "" && HasAt(s, p, "\"" + key + "\":" + t + more)
    ensures e == p + 1 + |key| && q == e + 2 + |t| && q + |more| <= |s|
    ensures HasAt(s, p, "\"" + key + "\"") && s[p] == '"' && s[e + 1] == ':'
    ensures s[e + 2] == t[0] && HasAt(s, e + 2, t) && HasAt(s, q, more)
  {
    e := p + 1 + |key|;
    q := e + 2 + |t|;
    var k := "\"" + key + "\"";
    assert HasAt(s, e + 1, ":" + (t + more)) && HasAt(s, p, k) by {
      assert "\"" + key + "\":" + t + more == k + (":" + (t + more));
      SplitAt(s, p, k, ":" + (t + more));
    }
    FirstAt(s, p, k);
    SplitAt(s, e + 1, ":", t + more);
    FirstAt(s, e + 1, ":");
    SplitAt(s, e + 2, t, more);
    FirstAt(s, e + 2, t);
  }

  /** The pieces of the members that are left: the first key ends at `e`, its value at `q`. */
  lemma MembersAt(members: seq<Member>, s: string, p: nat) returns (e: nat, q: nat)
    requires p <= |s| && members != [] && HasAt(s, p, MembersText(members)) && SpelledMembers(members)
    requires p + |MembersText(members)| < |s| && s[p + |MembersText(members)|] == '}'
    ensures p < e && e + 2 <= q < |s| && s[p] == '"' && s[e] == '"' && s[e + 1] == ':'
    ensures Scan(s, p + 1) == e && s[p + 1..e] == members[0].key
    ensures !InClass(Space, s[e + 2]) && HasAt(s, e + 2, Text(members[0].value))
      && q == e + 2 + |Text(members[0].value)|
    ensures var more := MoreMembersText(members[1..]);
            HasAt(s, q, more) && NumberEnds(s, q) && q + |more| == p + |MembersText(members)|
  {
    var key, t, more := PiecesOf(members);
    e, q := PiecesAt(key, t, more, s, p);
    QuotedText(key, s, p);
    AfterValue(more, '}', s, q);
  }

  lemma PiecesOf(members: seq<Member>) returns (key: string, t: string, more: string)
    requires members != [] && !members[0].value.Double?
    ensures key == members[0].key && t == Text(members[0].value) && more == MoreMembersText(members[1..])
    ensures MembersText(members) == "\"" + key + "\":" + t + more
    ensures t != "" && !InClass(Space, t[0]) && (more == "" || more[0] == ',')
  {
    key, t, more := members[0].key, Text(members[0].value), MoreMembersText(members[1..]);
    TextLeads(members[0].value);
  }

  lemma {:induction false} ReadsMoreMembers(g: Grammar, members: seq<Member>, s: string, q: nat)
    requires Ready(g) && q <= |s| && HasAt(s, q, MoreMembersText(members))
    requires SpelledMembers(members)
    requires q + |MoreMembersText(members)| < |s| && s[q + |MoreMembersText(members)|] == '}'
    ensures Reads(g, MORE_MEMBERS, s, q, q + |MoreMembersText(members)|, MemberEvents(members))
    decreases members, 2
  {
    AfterValue(MoreMembersText(members), '}', s, q);
    if members != [] {
      var body := MembersText(members);
      assert MoreMembersText(members) == "," + body;
      SplitAt(s, q, ",", body);
      FirstAt(s, q + 1, body);
      ReadsMembers(g, members, s, q + 1);
    }
    TailReads(g, MORE_MEMBERS, MEMBER, s, q);
  }
}
