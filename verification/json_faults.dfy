/** Parsing that throws: numbers that do not fit, and where the caller's position is then; and what no
    text makes the builder do. */
module JsonFaults {
  import opened Grammars
  import opened Engine
  import opened EngineLaws
  import opened JsonGrammar
  import opened JsonMatching
  import opened Json
  import opened Builder
  import opened JsonParse
  import opened JsonRoundTrip
  import opened JsonTheorems
  import opened JsonReader
  import opened JsonConverse

  // ---- numbers that do not fit ----

  lemma {:induction false} FaultInFront(b: Build, mid: seq<Builder.Event>, post: seq<Builder.Event>)
    requires Reaches(b.root, b.path) && Replay(b, mid).Thrown?
    ensures Replay(b, mid + post) == Replay(b, mid) && FaultIndex(b, mid + post) < |mid|
    decreases mid
  {
    assert (mid + post)[1..] == mid[1..] + post;
    ApplyReaches(b, mid[0]);
    if Apply(b, mid[0]).Built? { FaultInFront(Apply(b, mid[0]).build, mid[1..], post); }
  }

  /** A first action, and then a run that throws. */
  lemma ThrownInside(b: Build, first: Builder.Event, mid: seq<Builder.Event>, post: seq<Builder.Event>)
    requires Reaches(b.root, b.path) && Apply(b, first).Built?
    requires Reaches(Apply(b, first).build.root, Apply(b, first).build.path)
    requires Replay(Apply(b, first).build, mid) == Thrown(OutOfRange)
    ensures Replay(b, [first] + mid + post) == Thrown(OutOfRange)
    ensures 1 <= FaultIndex(b, [first] + mid + post) < 1 + |mid|
  {
    FaultInFront(Apply(b, first).build, mid, post);
    FaultAfterOne(b, first, mid + post);
    assert [first] + mid + post == [first] + (mid + post);
  }

  lemma FaultAfterOne(b: Build, first: Builder.Event, rest: seq<Builder.Event>)
    requires Reaches(b.root, b.path) && Apply(b, first).Built?
    requires Reaches(Apply(b, first).build.root, Apply(b, first).build.path)
    requires Replay(Apply(b, first).build, rest).Thrown?
    ensures Replay(b, [first] + rest) == Replay(Apply(b, first).build, rest)
    ensures FaultIndex(b, [first] + rest) == 1 + FaultIndex(Apply(b, first).build, rest)
  {
    assert ([first] + rest)[1..] == rest;
  }

  /** Replaying what a value gives rise to throws when one of its numbers does not fit. */
  lemma {:induction false} ReplayOverflows(b: Build, v: Value)
    requires Reaches(b.root, b.path) && !b.stop && Spelled(v) && !NumbersFit(v)
    ensures Replay(b, Events(v)) == Thrown(OutOfRange)
    ensures var k := FaultIndex(b, Events(v)); if v.Int? then k == 0 else 1 <= k < |Events(v)| - 1
    decreases v, 1
  {
    match v
    case Int(i) =>
      StoiOfDecimal(i);
      ReplayOne(b, IntValue(Decimal(i)));
    case Array(items) =>
      SetLaws(b.root, b.path, Array([]), Nil);
      ReplayOne(b, ArrayBegin);
      ItemsOverflow(b.(root := Set(b.root, b.path, Array([]))), items);
      ThrownInside(b, ArrayBegin, ItemEvents(items), [ArrayEnd]);
    case Object(members) =>
      SetLaws(b.root, b.path, Object([]), Nil);
      ReplayOne(b, ObjectBegin);
      MembersOverflow(b.(root := Set(b.root, b.path, Object([]))), members);
      ThrownInside(b, ObjectBegin, MemberEvents(members), [ObjectEnd]);
  }

  lemma {:induction false} ItemsOverflow(b: Build, items: seq<Value>)
    requires Reaches(b.root, b.path) && !b.stop && Get(b.root, b.path).Array?
    requires SpelledItems(items) && exists x :: x in items && !NumbersFit(x)
    ensures Replay(b, ItemEvents(items)) == Thrown(OutOfRange)
    decreases items, 0
  {
    var x, rest := items[0], items[1..];
    if NumbersFit(x) {
      var done := Get(b.root, b.path).items;
      ReplayItem(b, x);
      SetLaws(b.root, b.path, Array(done + [Stored(x)]), Nil);
      ItemsOverflow(b.(root := Set(b.root, b.path, Array(done + [Stored(x)]))), rest);
      ReplayAppend(b, [ArrayItem] + Events(x), ItemEvents(rest));
    } else {
      ReplayOne(b, ArrayItem);
      ApplyReaches(b, ArrayItem);
      ReplayOverflows(Apply(b, ArrayItem).build, x);
      ThrownInside(b, ArrayItem, Events(x), ItemEvents(rest));
    }
  }

  lemma {:induction false} MembersOverflow(b: Build, members: seq<Member>)
    requires Reaches(b.root, b.path) && !b.stop && Get(b.root, b.path).Object?
    requires SpelledMembers(members) && exists m :: m in members && !NumbersFit(m.value)
    ensures Replay(b, MemberEvents(members)) == Thrown(OutOfRange)
    decreases members, 0
  {
    var m, rest := members[0], members[1..];
    if NumbersFit(m.value) {
      var next := Object(Insert(Get(b.root, b.path).members, m.key, Stored(m.value)));
      ReplayMember(b, m.key, m.value);
      SetLaws(b.root, b.path, next, Nil);
      MembersOverflow(b.(root := Set(b.root, b.path, next)), rest);
      ReplayAppend(b, [ObjectItem(m.key)] + Events(m.value), MemberEvents(rest));
    } else {
      ReplayOne(b, ObjectItem(m.key));
      ApplyReaches(b, ObjectItem(m.key));
      ReplayOverflows(Apply(b, ObjectItem(m.key)).build, m.value);
      ThrownInside(b, ObjectItem(m.key), Events(m.value), MemberEvents(rest));
    }
  }

  // ---- where the position is left ----

  lemma HeldSkips(g: Grammar, a: Rule, b: Rule, s: string, p: nat, k: nat)
    requires Runnable(g, Or(a, b), s, p) && Productive(g, a) && Productive(g, b) && Eval(g, a, s, p) == No(p)
    ensures HeldAt(g, Or(a, b), s, p, k) == HeldAt(g, b, s, p, k)
  {
  }

  lemma HeldStays(g: Grammar, a: Rule, b: Rule, s: string, p: nat, k: nat)
    requires Runnable(g, Or(a, b), s, p) && Productive(g, a) && Eval(g, a, s, p).ok
    ensures HeldAt(g, Or(a, b), s, p, k) == HeldAt(g, a, s, p, k)
  {
  }

  lemma HeldFirst(g: Grammar, a: Rule, b: Rule, s: string, p: nat, k: nat)
    requires Runnable(g, And(a, b), s, p) && Productive(g, a) && k < |Eval(g, a, s, p).trace|
    ensures HeldAt(g, And(a, b), s, p, k) == HeldAt(g, a, s, p, k)
  {
  }

  lemma HeldSecond(g: Grammar, a: Rule, b: Rule, s: string, p: nat, o: Outcome, k: nat)
    requires Runnable(g, And(a, b), s, p) && Productive(g, a) && Productive(g, b)
    requires Eval(g, a, s, p) == o && o.ok && k >= |o.trace|
    ensures o.pos <= |s| && HeldAt(g, And(a, b), s, p, k) == HeldAt(g, b, s, o.pos, k - |o.trace|)
  {
  }

  lemma HeldPart(g: Grammar, r: Rule, s: string, p: nat, k: nat)
    requires Ready(g) && p <= |s| && r.Ref? && r.slot < SLOTS
    ensures Productive(g, Body(r.slot)) && HeldAt(g, r, s, p, k) == HeldAt(g, Body(r.slot), s, p, k)
  {
    assert SlotFits(g, g.slots[r.slot], g.claims[r.slot]);
  }

  /** A call from the optional part of a bracketed rule: its iteration works on a copy. */
  lemma HeldInside(g: Grammar, open: Rule, mid: Rule, close: Rule, s: string, p: nat, call: Engine.Event, k: nat)
    requires Ready(g) && Productive(g, And5(open, WS, mid, WS, close)) && p < |s| && mid.Iteration?
    requires Productive(g, open) && Eval(g, open, s, p) == Outcome(true, p + 1, [call])
    requires Productive(g, mid) && 1 <= k < 1 + |Eval(g, mid, s, RunEnd(Space, s, p + 1)).trace|
    ensures HeldAt(g, And5(open, WS, mid, WS, close), s, p, k) == RunEnd(Space, s, p + 1)
  {
    And5Parts(g, open, WS, mid, WS, close);
    var x := RunEnd(Space, s, p + 1);
    var m := Eval(g, mid, s, x);
    assert Eval(g, And(open, WS), s, p) == Outcome(true, x, [call]) by {
      AndRuns(g, open, WS, s, p);
      WsRuns(g, s, p + 1);
      assert [call] + [] == [call];
    }
    assert |Eval(g, And3(open, WS, mid), s, p).trace| == 1 + |m.trace| by { AndRuns(g, And(open, WS), mid, s, p); }
    HeldSecond(g, And(open, WS), mid, s, p, Outcome(true, x, [call]), k);
    HeldLonger(g, And3(open, WS, mid), WS, s, p, k);
    HeldLonger(g, And4(open, WS, mid, WS), close, s, p, k);
  }

  lemma HeldLonger(g: Grammar, a: Rule, b: Rule, s: string, p: nat, k: nat)
    requires Runnable(g, And(a, b), s, p) && Productive(g, a) && k < |Eval(g, a, s, p).trace|
    ensures HeldAt(g, And(a, b), s, p, k) == HeldAt(g, a, s, p, k) && k < |Eval(g, And(a, b), s, p).trace|
  {
    HeldFirst(g, a, b, s, p, k);
    AndRuns(g, a, b, s, p);
  }

  /** A call from the value rule, when the value is an array or an object. */
  lemma HeldInValue(g: Grammar, s: string, p: nat, k: nat)
    requires Ready(g) && p < |s| && (s[p] == '[' || s[p] == '{') && Eval(g, VALUE, s, p).ok
    requires s[p] == '[' ==> Eval(g, V_ARRAY, s, p).ok
    ensures HeldAt(g, VALUE, s, p, k) == HeldAt(g, if s[p] == '[' then V_ARRAY else V_OBJECT, s, p, k)
  {
    var first := Or(Or(Or(V_NULL, V_BOOL), V_DOUBLE), V_INT);
    var str := Or(first, V_STRING);
    HeldPart(g, VALUE, s, p, k);
    ValueBodyIs();
    PlainChoice();
    ValueParts(g, s, p);
    PlainIs(g, s, p);
    StringIs(g, s, p);
    NumberMisses(s, p);
    assert Eval(g, str, s, p) == No(p) by { SkipsFailed(g, first, V_STRING, s, p); }
    HeldSkips(g, str, V_ARRAY, s, p, k);
    SkipsFailed(g, str, V_ARRAY, s, p);
    if s[p] == '[' {
      HeldStays(g, Or(str, V_ARRAY), V_OBJECT, s, p, k);
    } else {
      ArrayIs(g, s, p);
      HeldSkips(g, Or(str, V_ARRAY), V_OBJECT, s, p, k);
    }
  }

  lemma HeldInDocument(g: Grammar, s: string, k: nat)
    requires Ready(g) && RunEnd(Space, s, 0) == 0 && k < |Eval(g, VALUE, s, 0).trace|
    ensures HeldAt(g, DOCUMENT, s, 0, k) == HeldAt(g, VALUE, s, 0, k)
  {
    HeldPart(g, DOCUMENT, s, 0, k);
    assert Productive(g, And(WS, VALUE));
    WsRuns(g, s, 0);
    HeldSecond(g, WS, VALUE, s, 0, Yes(0), k);
    assert k < |Eval(g, And(WS, VALUE), s, 0).trace| by { AndRuns(g, WS, VALUE, s, 0); }
    HeldFirst(g, And(WS, VALUE), WS, s, 0, k);
  }

  lemma BracketedCalls(s: string, p: nat)
    requires p < |s|
    ensures s[p] == '[' && ReadArray(s, p).o.ok ==>
      |ReadArray(s, p).o.trace| == |ReadItems(s, RunEnd(Space, s, p + 1)).o.trace| + 2
    ensures s[p] == '{' && ReadObject(s, p).o.ok ==>
      |ReadObject(s, p).o.trace| == |ReadMembers(s, RunEnd(Space, s, p + 1)).o.trace| + 2
  {
  }

  /** The brackets of the two bracketed rules. */
  lemma BracketsOf(g: Grammar, part: Rule, s: string, p: nat) returns (open: Rule, close: Rule)
    requires Ready(g) && p < |s| && ((part == V_ARRAY && s[p] == '[') || (part == V_OBJECT && s[p] == '{'))
    ensures Body(part.slot) == And5(open, WS, Maybe(if part == V_ARRAY then ITEM else MEMBER), WS, close)
    ensures Productive(g, open)
    ensures Eval(g, open, s, p)
            == Outcome(true, p + 1, [Fired(if part == V_ARRAY then ARRAY_BEGIN else OBJ_BEGIN, p, p + 1)])
  {
    if part == V_ARRAY {
      open, close := Extractor(Char('['), ARRAY_BEGIN), Extractor(Char(']'), ARRAY_END);
      FiredIs(g, '[', ARRAY_BEGIN, s, p);
    } else {
      open, close := Extractor(Char('{'), OBJ_BEGIN), Extractor(Char('}'), OBJ_END);
      FiredIs(g, '{', OBJ_BEGIN, s, p);
    }
  }

  /** A call from between the brackets of an array or an object. */
  lemma HeldInArray(g: Grammar, s: string, p: nat, k: nat)
    requires Ready(g) && p < |s| && s[p] == '[' && ReadArray(s, p).o.ok && 1 <= k < |ReadArray(s, p).o.trace| - 1
    ensures HeldAt(g, V_ARRAY, s, p, k) == RunEnd(Space, s, p + 1)
  {
    var x := RunEnd(Space, s, p + 1);
    assert Productive(g, Maybe(ITEM)) && 1 <= k < 1 + |Eval(g, Maybe(ITEM), s, x).trace| by {
      ItemsAre(g, s, x);
      BracketedCalls(s, p);
    }
    var open, close := BracketsOf(g, V_ARRAY, s, p);
    HeldPart(g, V_ARRAY, s, p, k);
    HeldInside(g, open, Maybe(ITEM), close, s, p, Fired(ARRAY_BEGIN, p, p + 1), k);
  }

  lemma HeldInObject(g: Grammar, s: string, p: nat, k: nat)
    requires Ready(g) && p < |s| && s[p] == '{' && ReadObject(s, p).o.ok && 1 <= k < |ReadObject(s, p).o.trace| - 1
    ensures HeldAt(g, V_OBJECT, s, p, k) == RunEnd(Space, s, p + 1)
  {
    var x := RunEnd(Space, s, p + 1);
    assert Productive(g, Maybe(MEMBER)) && 1 <= k < 1 + |Eval(g, Maybe(MEMBER), s, x).trace| by {
      MembersAre(g, s, x);
      BracketedCalls(s, p);
    }
    var open, close := BracketsOf(g, V_OBJECT, s, p);
    HeldPart(g, V_OBJECT, s, p, k);
    HeldInside(g, open, Maybe(MEMBER), close, s, p, Fired(OBJ_BEGIN, p, p + 1), k);
  }

  /** An action that throws from between the brackets of a whole array or object leaves the position
      after the opening bracket. */
  lemma HeldInBrackets(g: Grammar, s: string, k: nat)
    requires Ready(g) && |s| > 1 && (s[0] == '[' || s[0] == '{') && !InClass(Space, s[1])
    requires ReadValue(s, 0).o.ok && (s[0] == '[' ==> ReadArray(s, 0).o.ok)
    requires 1 <= k < |ReadValue(s, 0).o.trace| - 1
    ensures HeldAt(g, DOCUMENT, s, 0, k) == 1
  {
    assert RunEnd(Space, s, 0) == 0 && RunEnd(Space, s, 1) == 1;
    ValueIs(g, s, 0);
    HeldInDocument(g, s, k);
    HeldInBracketed(g, s, 0, k);
  }

  lemma HeldInBracketed(g: Grammar, s: string, p: nat, k: nat)
    requires Ready(g) && p < |s| && (s[p] == '[' || s[p] == '{')
    requires ReadValue(s, p).o.ok && (s[p] == '[' ==> ReadArray(s, p).o.ok)
    requires 1 <= k < |ReadValue(s, p).o.trace| - 1
    ensures HeldAt(g, VALUE, s, p, k) == RunEnd(Space, s, p + 1)
  {
    assert ReadValue(s, p) == if s[p] == '[' then ReadArray(s, p) else ReadObject(s, p);
    ValueIs(g, s, p);
    ArrayIs(g, s, p);
    HeldInValue(g, s, p, k);
    if s[p] == '[' { HeldInArray(g, s, p, k); } else { HeldInObject(g, s, p, k); }
  }

  // ---- what parsing comes to ----

  /** What parsing makes of the text of any value whose strings and keys are well spelled: the value
      as a map-based tree holds it, or an exception when a number does not fit. That leaves the
      position at the number, or after the first bracket. */
  lemma SpelledRoundTrip(v: Value)
    requires Spelled(v)
    ensures var s := Text(v);
      Parse(s, 0) ==
        if NumbersFit(v) then (Returned(Stored(v)), |s|) else (Threw(OutOfRange), if v.Int? then 0 else 1)
  {
    var s := Text(v);
    if v.Int? {
      IntRoundTrip(v.i);
    } else if NumbersFit(v) {
      assert s[0..|s|] == s;
      TextLeads(v);
      assert RunEnd(Space, s, 0) == 0;
      ParseReadsText(v, s, 0);
    } else {
      var g, k := SpelledReadsAll(v);
      BracketsLead(v);
      HeldInBrackets(g, s, k);
    }
  }

  lemma BracketsLead(v: Value)
    requires Spelled(v) && (v.Array? || v.Object?)
    ensures |Text(v)| > 1 && (Text(v)[0] == '[' || Text(v)[0] == '{') && !InClass(Space, Text(v)[1])
  {
    if v.Array? {
      if v.items != [] {
        assert Spelled(v.items[0]);
        ItemsTextLeads(v.items);
      }
    } else {
      if v.members != [] { MembersTextLeads(v.members); }
    }
  }

  /** All of the text is read, and the k-th action throws. */
  lemma SpelledReadsAll(v: Value) returns (g: Grammar, k: nat)
    requires Spelled(v) && !NumbersFit(v) && !v.Int?
    ensures JReady(g) && Parse(Text(v), 0) == (Threw(OutOfRange), HeldAt(g, DOCUMENT, Text(v), 0, k))
    ensures var r := ReadValue(Text(v), 0).o;
      r.ok && 1 <= k < |r.trace| - 1 && (v.Array? ==> ReadArray(Text(v), 0).o.ok)
  {
    var s := Text(v);
    assert s[0..|s|] == s;
    TextLeads(v);
    assert RunEnd(Space, s, 0) == 0;
    g := ParseIs(s, 0);
    SpelledReads(g, v, s, 0);
    ValueIs(g, s, 0);
    DocumentReads(g, s, 0, |s|, Events(v));
    ReplayOverflows(Start(), v);
    ActionsLength(s, ReadValue(s, 0).o.trace);
    k := FaultIndex(Start(), Events(v));
    if v.Array? { ArrayStands(v, s, 0); }
  }

  /** A text that is all one number with a dot or an exponent: a double keeps its spelling, or an
      exception is thrown when it is too great or too small for one. */
  lemma DoubleParses(s: string)
    requires s != "" && NumberRun(s, 0) == Outcome(true, |s|, [Fired(DOUBLE_VALUE, 0, |s|)])
    ensures Parse(s, 0) == if FitsDouble(Unsigned(s)) then (Returned(Double(s)), |s|) else (Threw(OutOfRange), 0)
  {
    assert DigitCount(Unsigned(s)) > 0 by { assert Unsigned(s)[0] == s[SignEnd(s, 0)]; }
    var g := ParseIs(s, 0);
    var e := Fired(DOUBLE_VALUE, 0, |s|);
    NumberIsDocument(g, s);
    DoubleAction(s);
    ReplayOne(Start(), DoubleValue(s));
    assert Replay(Start(), [DoubleValue(s)])
        == if FitsDouble(Unsigned(s)) then Built(Build(Double(s), [], true)) else Thrown(OutOfRange);
    if !FitsDouble(Unsigned(s)) { ThrownAtOnce(g, s, e); }
  }

  lemma DoubleAction(s: string)
    ensures Actions(s, [Fired(DOUBLE_VALUE, 0, |s|)]) == [DoubleValue(s)]
  {
    OneAction(s, Fired(DOUBLE_VALUE, 0, |s|));
    assert Slice(s, 0, |s|) == s;
  }

  lemma NumberIsDocument(g: Grammar, s: string)
    requires Ready(g) && s != "" && NumberRun(s, 0).ok && NumberRun(s, 0).pos == |s|
    ensures Eval(g, DOCUMENT, s, 0) == NumberRun(s, 0)
  {
    assert RunEnd(Space, s, 0) == 0;
    DocumentRuns(g, s, 0);
    ValueIs(g, s, 0);
    assert ReadValue(s, 0) == Clean(NumberRun(s, 0));
  }

  // ---- what no text makes the builder do ----

  lemma PlainWrites(s: string, p: nat)
    requires p <= |s| && (p < |s| ==> s[p] != '"' && s[p] != '[' && s[p] != '{')
    ensures ReadValue(s, p).o == Plain(s, p)
    ensures var t := Plain(s, p).trace; t == [] || Writes(Action(s, t[0]))
  {
  }

  /** What stands in front of all calls decides. */
  lemma StartWrites(s: string, e: Engine.Event, more: seq<Engine.Event>, t: seq<Engine.Event>)
    requires Writes(Action(s, e)) && t == [e] + more
    ensures t != [] && Writes(Action(s, t[0]))
  {
  }

  lemma BracketWrites(s: string, p: nat)
    requires p < |s| && (s[p] == '[' || s[p] == '{')
    ensures var t := ReadValue(s, p).o.trace; t != [] && Writes(Action(s, t[0]))
  {
    var x := RunEnd(Space, s, p + 1);
    if s[p] == '[' {
      var rest := ItemsFirst(s, p);
      var inner := ReadItems(s, x).o.trace;
      Joined([Fired(ARRAY_BEGIN, p, p + 1)], inner, rest);
      StartWrites(s, Fired(ARRAY_BEGIN, p, p + 1), inner + rest, ReadValue(s, p).o.trace);
    } else {
      var rest := MembersFirst(s, p);
      var inner := ReadMembers(s, x).o.trace;
      Joined([Fired(OBJ_BEGIN, p, p + 1)], inner, rest);
      StartWrites(s, Fired(OBJ_BEGIN, p, p + 1), inner + rest, ReadValue(s, p).o.trace);
    }
  }

  lemma Joined(a: seq<Engine.Event>, b: seq<Engine.Event>, c: seq<Engine.Event>)
    ensures a + b + c == a + (b + c)
  {
  }

  lemma FirstCallWrites(s: string, p: nat)
    requires p <= |s|
    ensures var t := ReadValue(s, p).o.trace; t == [] || Writes(Action(s, t[0]))
  {
    if p < |s| && s[p] == '"' {
      var rest := QuotedFirst(s, p);
      StartWrites(s, Fired(STRING_VALUE, p + 1, Scan(s, p + 1)), rest, ReadValue(s, p).o.trace);
    } else if p < |s| && (s[p] == '[' || s[p] == '{') {
      BracketWrites(s, p);
    } else {
      PlainWrites(s, p);
    }
  }

  /** No action for an item is ever called for while there is no container: the pointer that it
      follows is not null. */
  lemma ItemsFindContainers(g: Grammar, s: string, p: nat, k: nat)
    requires Ready(g) && p <= |s|
    requires var es := Actions(s, Eval(g, DOCUMENT, s, p).trace);
      k < |es| && Opens(es[k]) && Replay(Start(), es[..k]).Built?
    ensures var es := Actions(s, Eval(g, DOCUMENT, s, p).trace);
      var b := Replay(Start(), es[..k]).build; Get(b.root, b.path) != Nil
  {
    var t := Eval(g, DOCUMENT, s, p).trace;
    var q := RunEnd(Space, s, p);
    assert t == ReadValue(s, q).o.trace by {
      DocumentRuns(g, s, p);
      ValueIs(g, s, q);
    }
    FirstCallWrites(s, q);
    FirstWriteSuffices(Actions(s, t), k);
  }
}
