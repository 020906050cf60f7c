/** The header fields of an HTTP message (include/gcm/socket/http.h): the grammar of `*field`, what
    the engine does with it on any text, and the actions that collect the headers. */
module HttpHeaders {
  import opened Grammars
  import opened Engine
  import opened EngineLaws

  const CRLF := "\r\n"

  // The actions bound to the rules.
  const SET_FIELD_NAME: ActionId := 0
  const SET_FIELD_BODY: ActionId := 1
  const ADD_HEADER: ActionId := 2

  function NameChar(): Rule { Exception(CType(Print), Char(':')) }

  function FieldName(): Rule { Star(NameChar()) }

  function BodyChar(): Rule { Exception(AnyChar, Literal(CRLF)) }

  /** White space, a piece of the body, and the end of the line. */
  function Line(lead: Rule): Rule
  {
    And3(lead, Extractor(Star(BodyChar()), SET_FIELD_BODY), Literal(CRLF))
  }

  function FirstLine(): Rule { Line(Star(CType(Space))) }

  function FoldedLine(): Rule { Line(Plus(CType(Space))) }

  function FieldBody(): Rule { And(FirstLine(), Star(FoldedLine())) }

  function Field(): Rule
  {
    And3(Extractor(FieldName(), SET_FIELD_NAME), Literal(":"), Extractor(FieldBody(), ADD_HEADER))
  }

  /** The rules name no slots, so any grammar will do; this one has none. */
  const HTTP := Grammar([], [])

  lemma FieldTerminates(g: Grammar)
    requires WellFormed(g)
    ensures Productive(g, FieldName()) && Productive(g, Star(BodyChar())) && Productive(g, FirstLine())
    ensures Productive(g, FoldedLine()) && Productive(g, Star(FoldedLine())) && Productive(g, FieldBody())
    ensures Productive(g, Field()) && Productive(g, Star(Field()))
  {
    ExceptConsumes(g, CType(Print), Char(':'));
    ExceptConsumes(g, AnyChar, Literal(CRLF));
    WrappedConsumes(g, NameChar(), 0, 0);
    WrappedConsumes(g, BodyChar(), 0, 0);
    LeafConsumes(g, CType(Space));
    WrappedConsumes(g, CType(Space), 0, 0);
    LineOk(g, Star(CType(Space)));
    LineOk(g, Plus(CType(Space)));
    WrappedConsumes(g, FoldedLine(), 0, 0);
    FieldOk(g, FieldName(), FieldBody());
    WrappedConsumes(g, Field(), 0, 0);
  }

  lemma ExceptConsumes(g: Grammar, a: Rule, b: Rule)
    requires a.AnyChar? || a.CType?
    requires b.Char? || b.Literal?
    ensures Consumes(g, Exception(a, b), 0)
  {
  }

  /** A line ends with something that consumes. */
  lemma LineOk(g: Grammar, lead: Rule)
    requires Productive(g, lead) && LeftRank(g, lead) == 0 && Productive(g, Star(BodyChar()))
      && LeftRank(g, Star(BodyChar())) == 0
    ensures Consumes(g, Line(lead), 0)
  {
    var body := Extractor(Star(BodyChar()), SET_FIELD_BODY);
    BothInPlace(g, lead, body);
    EmptyThenConsumes(g, And(lead, body), Literal(CRLF), 0);
  }

  lemma BothInPlace(g: Grammar, a: Rule, b: Rule)
    requires Productive(g, a) && LeftRank(g, a) == 0 && Productive(g, b) && LeftRank(g, b) == 0
    ensures Productive(g, And(a, b)) && LeftRank(g, And(a, b)) == 0
  {
  }

  lemma FieldOk(g: Grammar, name: Rule, body: Rule)
    requires Productive(g, name) && LeftRank(g, name) == 0 && Productive(g, body)
    ensures Consumes(g, And3(Extractor(name, SET_FIELD_NAME), Literal(":"), Extractor(body, ADD_HEADER)), 0)
  {
    EmptyThenConsumes(g, Extractor(name, SET_FIELD_NAME), Literal(":"), 0);
    AndConsumes(g, And(Extractor(name, SET_FIELD_NAME), Literal(":")), Extractor(body, ADD_HEADER), 0);
  }

  // ---- what the engine does with it ----

  function Yes(p: nat): Outcome { Outcome(true, p, []) }

  predicate IsNameChar(ch: char) { ' ' <= ch <= '~' && ch != ':' }

  function NameEnd(s: string, p: nat): (q: nat)
    requires p <= |s|
    ensures p <= q <= |s|
    decreases |s| - p
  {
    if p < |s| && IsNameChar(s[p]) then NameEnd(s, p + 1) else p
  }

  predicate LineEnd(s: string, p: nat)
  {
    p + 2 <= |s| && s[p] == '\r' && s[p + 1] == '\n'
  }

  lemma LineEndAt(s: string, p: nat)
    requires p <= |s|
    ensures HasAt(s, p, CRLF) <==> LineEnd(s, p)
  {
    if p + 2 <= |s| {
      assert s[p..p + 2] == [s[p], s[p + 1]];
      assert CRLF == ['\r', '\n'];
    }
  }

  /** The next line end, or the end of the text. */
  function BodyEnd(s: string, p: nat): (q: nat)
    requires p <= |s|
    ensures p <= q <= |s|
    ensures q < |s| ==> q + 2 <= |s|
    decreases |s| - p
  {
    if p == |s| || LineEnd(s, p) then p else BodyEnd(s, p + 1)
  }

  lemma {:induction false} BodyEndStops(s: string, p: nat)
    requires p <= |s|
    ensures BodyEnd(s, p) < |s| ==> LineEnd(s, BodyEnd(s, p))
    decreases |s| - p
  {
    if p < |s| && !LineEnd(s, p) { BodyEndStops(s, p + 1); }
  }

  lemma {:induction false} NameRuns(g: Grammar, s: string, p: nat)
    requires WellFormed(g) && p <= |s| && Productive(g, FieldName())
    ensures Eval(g, FieldName(), s, p) == Yes(NameEnd(s, p))
    decreases |s| - p
  {
    StarRuns(g, NameChar(), s, p);
    if p < |s| && IsNameChar(s[p]) { NameRuns(g, s, p + 1); }
  }

  lemma {:induction false} BodyRuns(g: Grammar, s: string, p: nat)
    requires WellFormed(g) && p <= |s| && Productive(g, Star(BodyChar()))
    ensures Eval(g, Star(BodyChar()), s, p) == Yes(BodyEnd(s, p))
    decreases |s| - p
  {
    StarRuns(g, BodyChar(), s, p);
    LineEndAt(s, p);
    if p < |s| && !LineEnd(s, p) { BodyRuns(g, s, p + 1); }
  }

  /** A line whose white space ends at `from`. */
  function LineAt(s: string, from: nat): Outcome
    requires from <= |s|
  {
    var to := BodyEnd(s, from);
    if to < |s| then Outcome(true, to + 2, [Fired(SET_FIELD_BODY, from, to)])
    else Outcome(false, to, [Fired(SET_FIELD_BODY, from, to)])
  }

  lemma LineRuns(g: Grammar, lead: Rule, s: string, p: nat, from: nat)
    requires WellFormed(g) && p <= from <= |s| && Productive(g, Line(lead))
    requires Productive(g, lead) && Eval(g, lead, s, p) == Yes(from)
    ensures Eval(g, Line(lead), s, p) == LineAt(s, from)
  {
    var body := Extractor(Star(BodyChar()), SET_FIELD_BODY);
    And3Runs(g, lead, body, Literal(CRLF), s, p);
    ExtractorRuns(g, Star(BodyChar()), SET_FIELD_BODY, s, from);
    BodyRuns(g, s, from);
    LineEndAt(s, BodyEnd(s, from));
    BodyEndStops(s, from);
    var fired := [Fired(SET_FIELD_BODY, from, BodyEnd(s, from))];
    assert [] + fired == fired && fired + [] == fired;
  }

  lemma FirstLineRuns(g: Grammar, s: string, p: nat)
    requires WellFormed(g) && p <= |s|
    ensures Productive(g, FirstLine()) && Eval(g, FirstLine(), s, p) == LineAt(s, RunEnd(Space, s, p))
  {
    FieldTerminates(g);
    ClassRun(g, Space, s, p);
    LineRuns(g, Star(CType(Space)), s, p, RunEnd(Space, s, p));
  }

  lemma FoldedLineRuns(g: Grammar, s: string, p: nat)
    requires WellFormed(g) && p <= |s|
    ensures Productive(g, FoldedLine())
    ensures var from := RunEnd(Space, s, p);
      Eval(g, FoldedLine(), s, p) == if from == p then Outcome(false, p, []) else LineAt(s, from)
  {
    FieldTerminates(g);
    var from := RunEnd(Space, s, p);
    ClassRun1(g, Space, s, p);
    if from > p {
      LineRuns(g, Plus(CType(Space)), s, p, from);
    } else {
      And3Runs(g, Plus(CType(Space)), Extractor(Star(BodyChar()), SET_FIELD_BODY), Literal(CRLF), s, p);
    }
  }

  /** The folded lines from p on. A last one without a line end stays consumed. */
  function Folds(s: string, p: nat): (o: Outcome)
    requires p <= |s|
    ensures o.ok && p <= o.pos <= |s|
    decreases |s| - p
  {
    var from := RunEnd(Space, s, p);
    if from == p then Yes(p) else
    var line := LineAt(s, from);
    if line.ok then Then(line, Folds(s, line.pos)) else Outcome(true, line.pos, line.trace)
  }

  lemma {:induction false} FoldsRun(g: Grammar, s: string, p: nat)
    requires WellFormed(g) && p <= |s|
    ensures Productive(g, Star(FoldedLine())) && Eval(g, Star(FoldedLine()), s, p) == Folds(s, p)
    decreases |s| - p
  {
    FieldTerminates(g);
    StarRuns(g, FoldedLine(), s, p);
    FoldedLineRuns(g, s, p);
    var from := RunEnd(Space, s, p);
    if from > p && LineAt(s, from).ok { FoldsRun(g, s, LineAt(s, from).pos); }
  }

  function FieldBodyAt(s: string, p: nat): Outcome
    requires p <= |s|
  {
    var line := LineAt(s, RunEnd(Space, s, p));
    if !line.ok then Outcome(false, p, line.trace) else
    var folds := Folds(s, line.pos);
    Outcome(true, folds.pos, line.trace + folds.trace + [Fired(ADD_HEADER, p, folds.pos)])
  }

  lemma FieldBodyRuns(g: Grammar, s: string, p: nat)
    requires WellFormed(g) && p <= |s|
    ensures Productive(g, Extractor(FieldBody(), ADD_HEADER))
    ensures Eval(g, Extractor(FieldBody(), ADD_HEADER), s, p) == FieldBodyAt(s, p)
  {
    FieldTerminates(g);
    ExtractorRuns(g, FieldBody(), ADD_HEADER, s, p);
    AndRuns(g, FirstLine(), Star(FoldedLine()), s, p);
    FirstLineRuns(g, s, p);
    var line := LineAt(s, RunEnd(Space, s, p));
    if line.ok { FoldsRun(g, s, line.pos); }
  }

  /** One field. A name without a colon, and a first line without an end, are not taken back. */
  function FieldAt(s: string, p: nat): (o: Outcome)
    requires p <= |s|
    ensures p <= o.pos <= |s| && (o.ok ==> p < o.pos)
  {
    var n := NameEnd(s, p);
    var named := Outcome(true, n, [Fired(SET_FIELD_NAME, p, n)]);
    if n == |s| || s[n] != ':' then Outcome(false, n, named.trace) else Then(named, FieldBodyAt(s, n + 1))
  }

  lemma NamedRuns(g: Grammar, s: string, p: nat)
    requires WellFormed(g) && p <= |s|
    ensures Productive(g, Extractor(FieldName(), SET_FIELD_NAME))
    ensures var n := NameEnd(s, p);
      Eval(g, Extractor(FieldName(), SET_FIELD_NAME), s, p) == Outcome(true, n, [Fired(SET_FIELD_NAME, p, n)])
  {
    FieldTerminates(g);
    ExtractorRuns(g, FieldName(), SET_FIELD_NAME, s, p);
    NameRuns(g, s, p);
    var fired := [Fired(SET_FIELD_NAME, p, NameEnd(s, p))];
    assert [] + fired == fired;
  }

  lemma ColonRuns(g: Grammar, s: string, n: nat)
    requires WellFormed(g) && n <= |s|
    ensures Eval(g, Literal(":"), s, n) == if n < |s| && s[n] == ':' then Yes(n + 1) else Outcome(false, n, [])
  {
    assert n < |s| ==> s[n..n + 1] == [s[n]];
  }

  /** A first part that matches, and a second that calls nothing. */
  lemma TwoPartsRun(g: Grammar, a: Rule, b: Rule, c: Rule, s: string, p: nat, o1: Outcome, o2: Outcome)
    requires Runnable(g, And3(a, b, c), s, p)
    requires Productive(g, a) && Productive(g, b) && Productive(g, c)
    requires Eval(g, a, s, p) == o1 && o1.ok && Eval(g, b, s, o1.pos) == o2 && o2.trace == []
    ensures Eval(g, And3(a, b, c), s, p)
            == if o2.ok then Then(o1, Eval(g, c, s, o2.pos)) else Outcome(false, o2.pos, o1.trace)
  {
    And3Runs(g, a, b, c, s, p);
    assert o1.trace + [] == o1.trace;
  }

  /** A name, a colon that may be missing, and what follows it. */
  lemma NamedBodyRuns(g: Grammar, name: Rule, body: Rule, s: string, p: nat)
    requires Runnable(g, And3(name, Literal(":"), body), s, p) && Productive(g, name) && Productive(g, body)
    requires Eval(g, name, s, p) == Outcome(true, NameEnd(s, p), [Fired(SET_FIELD_NAME, p, NameEnd(s, p))])
    requires var n := NameEnd(s, p); n < |s| && s[n] == ':' ==> Eval(g, body, s, n + 1) == FieldBodyAt(s, n + 1)
    ensures Eval(g, And3(name, Literal(":"), body), s, p) == FieldAt(s, p)
  {
    var n := NameEnd(s, p);
    ColonRuns(g, s, n);
    TwoPartsRun(g, name, Literal(":"), body, s, p, Outcome(true, n, [Fired(SET_FIELD_NAME, p, n)]),
                if n < |s| && s[n] == ':' then Yes(n + 1) else Outcome(false, n, []));
  }

  lemma FieldParts(g: Grammar, s: string, p: nat) returns (name: Rule, body: Rule)
    requires WellFormed(g) && p <= |s|
    ensures Field() == And3(name, Literal(":"), body)
    ensures Productive(g, And3(name, Literal(":"), body)) && Productive(g, name) && Productive(g, body)
    ensures Eval(g, name, s, p) == Outcome(true, NameEnd(s, p), [Fired(SET_FIELD_NAME, p, NameEnd(s, p))])
    ensures var n := NameEnd(s, p); n < |s| && s[n] == ':' ==> Eval(g, body, s, n + 1) == FieldBodyAt(s, n + 1)
  {
    name, body := Extractor(FieldName(), SET_FIELD_NAME), Extractor(FieldBody(), ADD_HEADER);
    assert Productive(g, Field()) by { FieldTerminates(g); }
    assert Field() == And3(name, Literal(":"), body);
    NamedRuns(g, s, p);
    var n := NameEnd(s, p);
    assert Productive(g, body) by { FieldBodyRuns(g, s, p); }
    if n < |s| && s[n] == ':' { FieldBodyRuns(g, s, n + 1); }
  }

  lemma FieldRuns(g: Grammar, s: string, p: nat)
    requires WellFormed(g) && p <= |s|
    ensures Productive(g, Field()) && Eval(g, Field(), s, p) == FieldAt(s, p)
  {
    var name, body := FieldParts(g, s, p);
    NamedBodyRuns(g, name, body, s, p);
  }

  function FieldsAt(s: string, p: nat): (o: Outcome)
    requires p <= |s|
    ensures o.ok && p <= o.pos <= |s|
    decreases |s| - p
  {
    var o := FieldAt(s, p);
    if o.ok then Then(o, FieldsAt(s, o.pos)) else Outcome(true, o.pos, o.trace)
  }

  /** On every text, the engine reads the fields as FieldsAt says. */
  lemma {:induction false} FieldsRun(g: Grammar, s: string, p: nat)
    requires WellFormed(g) && p <= |s|
    ensures Productive(g, Star(Field())) && Eval(g, Star(Field()), s, p) == FieldsAt(s, p)
    decreases |s| - p
  {
    FieldTerminates(g);
    StarRuns(g, Field(), s, p);
    FieldRuns(g, s, p);
    var o := FieldAt(s, p);
    if o.ok { FieldsRun(g, s, o.pos); }
  }
}
