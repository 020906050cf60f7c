/** The laws of `parse` and `to_string` on whole documents, and on bodies that hold several. */
module JsonTheorems {
  import opened Grammars
  import opened Engine
  import opened EngineLaws
  import opened JsonGrammar
  import opened JsonMatching
  import opened Json
  import opened Builder
  import opened JsonParse
  import opened JsonRoundTrip

  /** White space, a value, white space. */
  lemma DocumentRuns(g: Grammar, s: string, p: nat)
    requires Ready(g) && p <= |s|
    ensures var q := RunEnd(Space, s, p);
            var v := Eval(g, VALUE, s, q);
            Eval(g, DOCUMENT, s, p) == if v.ok then Outcome(true, RunEnd(Space, s, v.pos), v.trace) else v
  {
    var q := RunEnd(Space, s, p);
    var v := Eval(g, VALUE, s, q);
    PartRuns(g, DOCUMENT, s, p);
    And3Runs(g, WS, VALUE, WS, s, p);
    WsRuns(g, s, p);
    WsRuns(g, s, v.pos);
    assert [] + v.trace == v.trace && v.trace + [] == v.trace;
  }

  ghost predicate JReady(g: Grammar) { g == J() && Ready(g) }

  /** Where the caller's position is left when an action throws. */
  function ThrownAt(g: Grammar, s: string, p: nat): nat
    requires Ready(g) && p <= |s| && Replay(Start(), Actions(s, Eval(g, DOCUMENT, s, p).trace)).Thrown?
  {
    HeldAt(g, DOCUMENT, s, p, FaultIndex(Start(), Actions(s, Eval(g, DOCUMENT, s, p).trace)))
  }

  lemma {:induction false} ActionsLength(s: string, trace: seq<Engine.Event>)
    ensures |Actions(s, trace)| == |trace|
  {
    if trace != [] { ActionsLength(s, trace[1..]); }
  }

  /** When the only action is given the whole text and throws, the position has not moved. */
  lemma ThrownAtOnce(g: Grammar, s: string, e: Engine.Event)
    requires Ready(g) && Eval(g, DOCUMENT, s, 0).trace == [e] && e.Fired? && e.from == 0
    requires Replay(Start(), [Action(s, e)]).Thrown?
    ensures Actions(s, [e]) == [Action(s, e)] && ThrownAt(g, s, 0) == 0
  {
    OneAction(s, e);
    HeldBefore(g, DOCUMENT, s, 0, 0);
  }

  lemma ParseIs(s: string, p: nat) returns (g: Grammar)
    requires p <= |s|
    ensures JReady(g)
    ensures var o := Eval(g, DOCUMENT, s, p);
            Parse(s, p) == match Replay(Start(), Actions(s, o.trace))
                           case Thrown(f) => (Threw(f), ThrownAt(g, s, p))
                           case Built(b) => (Returned(if o.ok then b.root else Nil), o.pos)
  {
    g := J();
    JsonTerminates(g);
  }

  lemma ReplayAtRoot(v: Value)
    requires NumbersFit(v)
    ensures Replay(Start(), Events(v)) == Built(Build(Stored(v), [], true))
  {
    ReplayFillsHole(Start(), v);
  }

  /** Whatever precedes it up to white space, and whatever follows it, a printed value is parsed
      as what a map-based tree makes of it, and the position moves past it and the white space
      after it. */
  lemma ParseReadsText(v: Value, s: string, p: nat)
    requires p <= |s| && Faithful(v)
    requires var q := RunEnd(Space, s, p); HasAt(s, q, Text(v)) && Follows(v, s, q + |Text(v)|)
    ensures Parse(s, p) == (Returned(Stored(v)), RunEnd(Space, s, RunEnd(Space, s, p) + |Text(v)|))
  {
    var q := RunEnd(Space, s, p);
    var g, es, r, w := ValueReads(v, s, q);
    ValueGives(g, s, p, r, es, w);
  }

  lemma ValueReads(v: Value, s: string, q: nat) returns (g: Grammar, es: seq<Builder.Event>, r: nat, w: Value)
    requires q <= |s| && Faithful(v) && HasAt(s, q, Text(v)) && Follows(v, s, q + |Text(v)|)
    ensures r == q + |Text(v)| && w == Stored(v)
    ensures JReady(g) && Reads(g, VALUE, s, q, r, es) && Replay(Start(), es) == Built(Build(w, [], true))
  {
    g := ParseIs(s, q);
    es, r, w := Events(v), q + |Text(v)|, Stored(v);
    ReadsValue(g, v, s, q);
    ReplayAtRoot(v);
  }

  lemma ValueGives(g: Grammar, s: string, p: nat, r: nat, es: seq<Builder.Event>, v: Value)
    requires JReady(g) && p <= |s| && r <= |s| && Reads(g, VALUE, s, RunEnd(Space, s, p), r, es)
    requires Replay(Start(), es) == Built(Build(v, [], true))
    ensures Parse(s, p) == (Returned(v), RunEnd(Space, s, r))
  {
    DocumentReads(g, s, p, r, es);
    ParseGives(g, s, p, RunEnd(Space, s, r), es, v);
  }

  lemma ParseGives(g: Grammar, s: string, p: nat, r: nat, es: seq<Builder.Event>, v: Value)
    requires JReady(g) && p <= |s| && r <= |s| && Reads(g, DOCUMENT, s, p, r, es)
    requires Replay(Start(), es) == Built(Build(v, [], true))
    ensures Parse(s, p) == (Returned(v), r)
  {
    var g2 := ParseIs(s, p);
  }

  lemma DocumentReads(g: Grammar, s: string, p: nat, r: nat, es: seq<Builder.Event>)
    requires Ready(g) && p <= |s| && r <= |s| && Reads(g, VALUE, s, RunEnd(Space, s, p), r, es)
    ensures Reads(g, DOCUMENT, s, p, RunEnd(Space, s, r), es)
  {
    DocumentRuns(g, s, p);
  }

  /** Round trip: parsing the printed text consumes all of it and gives the value back. */
  lemma RoundTrip(v: Value)
    requires Faithful(v) && Canonical(v)
    ensures Parse(Text(v), 0) == (Returned(v), |Text(v)|)
  {
    var s := Text(v);
    assert s[0..|s|] == s;
    TextLeads(v);
    assert RunEnd(Space, s, 0) == 0;
    ParseReadsText(v, s, 0);
    CanonicalIsStored(v);
  }

  // ---- the condition is exact for the scalars ----

  /** Integers go through `stoi`: those that do not fit in 32 bits throw. */
  lemma IntRoundTrip(i: int)
    ensures var s := Text(Int(i));
            Parse(s, 0) == if FitsInt(i) then (Returned(Int(i)), |s|) else (Threw(OutOfRange), 0)
  {
    var s := Text(Int(i));
    var g := ParseIs(s, 0);
    assert Reads(g, DOCUMENT, s, 0, |s|, [IntValue(Decimal(i))]) by { ReadsIntDocument(g, i, s); }
    ReplayOne(Start(), IntValue(Decimal(i)));
    StoiOfDecimal(i);
    if !FitsInt(i) {
      var t := Eval(g, DOCUMENT, s, 0).trace;
      ActionsLength(s, t);
      GivenAll(g, s, t[0]);
      assert t == [t[0]];
      ThrownAtOnce(g, s, t[0]);
    }
  }

  /** An action that was given all of the text was given it from the start. */
  lemma GivenAll(g: Grammar, s: string, e: Engine.Event)
    requires Ready(g) && s != "" && |Eval(g, DOCUMENT, s, 0).trace| == 1 && Eval(g, DOCUMENT, s, 0).trace[0] == e
    requires Action(s, e) == IntValue(s)
    ensures e.Fired? && e.from == 0
  {
    RangesInOrder(g, DOCUMENT, s, 0);
    assert Slice(s, e.from, e.to) == s;
  }

  lemma ReadsIntDocument(g: Grammar, i: int, s: string)
    requires Ready(g) && s == Text(Int(i))
    ensures Reads(g, DOCUMENT, s, 0, |s|, [IntValue(Decimal(i))])
  {
    assert s[0..|s|] == s;
    TextLeads(Int(i));
    assert RunEnd(Space, s, 0) == 0;
    ReadsInt(g, i, s, 0);
    DocumentReads(g, s, 0, |s|, [IntValue(Decimal(i))]);
  }

  lemma {:induction false} RunIsInClass(c: CharClass, s: string, p: nat, i: nat)
    requires p <= i < |s| && i < RunEnd(c, s, p)
    ensures InClass(c, s[i])
    decreases i - p
  {
    if p < i { RunIsInClass(c, s, p + 1, i); }
  }

  /** A string comes back exactly when it is printable and well spelled. Note that this includes
      strings ending in a bare `\u`, which are not JSON strings once quoted. */
  lemma StringRoundTrip(x: string)
    ensures var s := Text(String(x));
            Parse(s, 0) == (Returned(String(x)), |s|) <==> AllPrint(x) && WellSpelled(x)
  {
    if AllPrint(x) && WellSpelled(x) {
      RoundTrip(String(x));
    } else {
      BadStringChanges(x);
    }
  }

  lemma BadStringChanges(x: string)
    requires !(AllPrint(x) && WellSpelled(x))
    ensures Parse(Text(String(x)), 0) != (Returned(String(x)), |Text(String(x))|)
  {
    var s := Text(String(x));
    var g := ParseIs(s, 0);
    assert s[0] == '"' && RunEnd(Space, s, 0) == 0;
    var e := Scan(s, 1);
    if e < |s| && s[e] == '"' {
      ClosedStringParses(g, s, e);
      if s[1..e] == x && RunEnd(Space, s, e + 1) == |s| { ReadBackIsGood(x, s, e); }
    } else {
      OpenStringFails(g, s, 0);
    }
  }

  lemma ClosedStringParses(g: Grammar, s: string, e: nat)
    requires JReady(g) && s != "" && s[0] == '"' && RunEnd(Space, s, 0) == 0
    requires Scan(s, 1) == e && e < |s| && s[e] == '"'
    ensures Parse(s, 0) == (Returned(String(s[1..e])), RunEnd(Space, s, e + 1))
  {
    var x := String(s[1..e]);
    StringReads(g, s, 0, e);
    ReplayAtRoot(x);
    ValueGives(g, s, 0, e + 1, Events(x), x);
  }

  /** If all of a printed string is read and what is read is the string, it was a good one. */
  lemma ReadBackIsGood(x: string, s: string, e: nat)
    requires s == Text(String(x)) && Scan(s, 1) == e && e < |s| && s[1..e] == x && RunEnd(Space, s, e + 1) == |s|
    ensures AllPrint(x) && WellSpelled(x)
  {
    var n := |s| - 1;
    assert s[n] == '"' && s[1..n] == Escaped(x, false);
    if e < n { RunIsInClass(Space, s, e + 1, n); }
    EscapedGrows(x, false);
    assert s[1..|s|] == x + "\"";
    ScanStopsAtQuote(x, s, 1);
  }

  /** A string literal that does not end at a quote leaves its action called and the position
      moved; whatever the later alternatives then match, the result is no value. */
  lemma OpenStringFails(g: Grammar, s: string, p: nat)
    requires JReady(g) && p < |s| && s[p] == '"' && RunEnd(Space, s, p) == p
    requires var e := Scan(s, p + 1); e == |s| || s[e] != '"'
    ensures Parse(s, p).0 == Returned(Nil) || Parse(s, p).0 == Threw(UnexpectedInput)
  {
    var e := Scan(s, p + 1);
    DocumentRuns(g, s, p);
    var o := Eval(g, VALUE, s, p);
    var more := OpenStringRuns(g, s, p);
    var first, later := StringValue(Slice(s, p + 1, e)), Actions(s, more);
    assert Actions(s, o.trace) == [first] + later by {
      ActionsAppend(s, [Fired(STRING_VALUE, p + 1, e)], more);
      OneAction(s, Fired(STRING_VALUE, p + 1, e));
    }
    AfterRootString(first, later);
  }

  /** Once the root is complete, nothing but silence is accepted. */
  lemma AfterRootString(first: Builder.Event, later: seq<Builder.Event>)
    requires first.StringValue?
    ensures var r := Replay(Start(), [first] + later); r.Thrown? ==> r.fault == UnexpectedInput
  {
    ReplayAppend(Start(), [first], later);
    ReplayOne(Start(), first);
  }

  /** The value rule, with its last three alternatives apart. */
  lemma ValueBodyIs()
    ensures Body(VALUE.slot) == Or(Or(Or(Choice([V_NULL, V_BOOL, V_DOUBLE, V_INT]), V_STRING), V_ARRAY), V_OBJECT)
  {
    var first := [V_NULL, V_BOOL, V_DOUBLE, V_INT];
    assert VALUES == first + [V_STRING] + [V_ARRAY] + [V_OBJECT];
    ChoiceAppends(first, V_STRING);
    ChoiceAppends(first + [V_STRING], V_ARRAY);
    ChoiceAppends(first + [V_STRING] + [V_ARRAY], V_OBJECT);
  }

  lemma ChoiceAppends(rs: seq<Rule>, r: Rule)
    requires rs != []
    ensures Choice(rs + [r]) == Or(Choice(rs), r)
  {
    assert (rs + [r])[..|rs|] == rs;
  }

  lemma FirstFourFail(g: Grammar, s: string, p: nat)
    requires Ready(g) && p < |s| && s[p] == '"' && Productive(g, Choice([V_NULL, V_BOOL, V_DOUBLE, V_INT]))
    ensures Eval(g, Choice([V_NULL, V_BOOL, V_DOUBLE, V_INT]), s, p) == No(p)
  {
    WordsFail(g, s, p);
    NumbersFail(g, s, p);
    AllFail(g, [V_NULL, V_BOOL, V_DOUBLE, V_INT], s, p);
  }

  lemma OpenStringAlone(g: Grammar, s: string, p: nat)
    requires Ready(g) && p < |s| && s[p] == '"'
    requires var e := Scan(s, p + 1); e == |s| || s[e] != '"'
    ensures var e := Scan(s, p + 1); Eval(g, V_STRING, s, p) == Outcome(false, e, [Fired(STRING_VALUE, p + 1, e)])
  {
    PartRuns(g, V_STRING, s, p);
    QuotedRuns(g, STRING_VALUE, s, p);
  }

  lemma ValueParts(g: Grammar, s: string, p: nat)
    requires Ready(g) && p <= |s|
    ensures var first := Choice([V_NULL, V_BOOL, V_DOUBLE, V_INT]);
            Productive(g, first) && Productive(g, Or(Or(Or(first, V_STRING), V_ARRAY), V_OBJECT)) &&
            Eval(g, VALUE, s, p) == Eval(g, Or(Or(Or(first, V_STRING), V_ARRAY), V_OBJECT), s, p)
  {
    PartRuns(g, VALUE, s, p);
    ValueBodyIs();
    var first := Choice([V_NULL, V_BOOL, V_DOUBLE, V_INT]);
    assert Productive(g, Or(Or(first, V_STRING), V_ARRAY));
    assert Productive(g, Or(first, V_STRING));
  }

  lemma OpenStringGoesOn(g: Grammar, s: string, p: nat)
    requires Ready(g) && p < |s| && s[p] == '"'
    requires var e := Scan(s, p + 1); e == |s| || s[e] != '"'
    ensures var o := Eval(g, V_STRING, s, p);
            var a := Eval(g, V_ARRAY, s, o.pos);
            var b := Eval(g, V_OBJECT, s, a.pos);
            Eval(g, VALUE, s, p) == if a.ok then Then(o, a) else Then(Then(o, a), b)
  {
    OpenStringAlone(g, s, p);
    ValueParts(g, s, p);
    FirstFourFail(g, s, p);
    LaterAlternatives(g, Choice([V_NULL, V_BOOL, V_DOUBLE, V_INT]), V_STRING, V_ARRAY, V_OBJECT, s, p,
                      Eval(g, V_STRING, s, p));
  }

  lemma OpenStringRuns(g: Grammar, s: string, p: nat) returns (more: seq<Engine.Event>)
    requires Ready(g) && p < |s| && s[p] == '"'
    requires var e := Scan(s, p + 1); e == |s| || s[e] != '"'
    ensures var o := Eval(g, VALUE, s, p);
            o.trace == [Fired(STRING_VALUE, p + 1, Scan(s, p + 1))] + more && (o.ok ==> more != [])
  {
    OpenStringAlone(g, s, p);
    OpenStringGoesOn(g, s, p);
    var o := Eval(g, V_STRING, s, p);
    var a := Eval(g, V_ARRAY, s, o.pos);
    var b := Eval(g, V_OBJECT, s, a.pos);
    assert a.ok ==> a.trace != [] by { ArrayCalls(g, s, o.pos); }
    assert b.ok ==> b.trace != [] by { ObjectCalls(g, s, a.pos); }
    more := LaterCalls(o, a, b);
  }

  lemma LaterCalls(o: Outcome, a: Outcome, b: Outcome) returns (more: seq<Engine.Event>)
    requires (a.ok ==> a.trace != []) && (b.ok ==> b.trace != [])
    ensures var r := if a.ok then Then(o, a) else Then(Then(o, a), b);
      r.trace == o.trace + more && (r.ok ==> more != [])
  {
    more := if a.ok then a.trace else a.trace + b.trace;
    assert o.trace + a.trace + b.trace == o.trace + (a.trace + b.trace);
  }

  // An array or object that matches has called at least its closing action.

  lemma ArrayCalls(g: Grammar, s: string, p: nat)
    requires Ready(g) && p <= |s|
    ensures Eval(g, V_ARRAY, s, p).ok ==> Eval(g, V_ARRAY, s, p).trace != []
  {
    BracketCalls(g, V_ARRAY, '[', ARRAY_BEGIN, ITEM, ']', ARRAY_END, s, p);
  }

  lemma ObjectCalls(g: Grammar, s: string, p: nat)
    requires Ready(g) && p <= |s|
    ensures Eval(g, V_OBJECT, s, p).ok ==> Eval(g, V_OBJECT, s, p).trace != []
  {
    BracketCalls(g, V_OBJECT, '{', OBJ_BEGIN, MEMBER, '}', OBJ_END, s, p);
  }

  lemma BracketCalls(g: Grammar, r: Rule, c: char, a1: ActionId, rest: Rule, d: char, a2: ActionId, s: string, p: nat)
    requires Ready(g) && p <= |s| && (r == V_ARRAY || r == V_OBJECT)
    requires Body(r.slot) == And5(Extractor(Char(c), a1), WS, Maybe(rest), WS, Extractor(Char(d), a2))
    ensures Eval(g, r, s, p).ok ==> Eval(g, r, s, p).trace != []
  {
    PartRuns(g, r, s, p);
    var head, close := And4(Extractor(Char(c), a1), WS, Maybe(rest), WS), Extractor(Char(d), a2);
    AndRuns(g, head, close, s, p);
    ExtractorRuns(g, Char(d), a2, s, Eval(g, head, s, p).pos);
  }
}
