/** Headers survive being printed and read again, exactly when their names and values are what the
    format can carry (section 4.2 of RFC 2616). */
module HttpRoundTrip {
  import opened Grammars
  import opened Engine
  import opened EngineLaws
  import opened HttpHeaders

  datatype Header = Header(name: string, value: string)

  // ---- the actions ----

  /** `current_header` and the headers collected so far. */
  datatype Request = Request(headers: seq<Header>, current: Header)

  function Slice(s: string, from: nat, to: nat): string
  {
    if from <= to <= |s| then s[from..to] else ""
  }

  /** `set_field_body`: pieces of a folded value are joined by a blank. */
  function Appended(value: string, piece: string): string
  {
    if value == "" then piece else value + " " + piece
  }

  function Act(r: Request, e: Event, s: string): Request
  {
    if e.Reported? then r
    else if e.action == SET_FIELD_NAME then r.(current := Header(Slice(s, e.from, e.to), ""))
    else if e.action == SET_FIELD_BODY then
      r.(current := r.current.(value := Appended(r.current.value, Slice(s, e.from, e.to))))
    else r.(headers := r.headers + [r.current])
  }

  function Replay(r: Request, trace: seq<Event>, s: string): Request
    decreases trace
  {
    if trace == [] then r else Replay(Act(r, trace[0], s), trace[1..], s)
  }

  lemma {:induction false} ReplayAppend(r: Request, xs: seq<Event>, ys: seq<Event>, s: string)
    ensures Replay(r, xs + ys, s) == Replay(Replay(r, xs, s), ys, s)
    decreases xs
  {
    if xs == [] {
      assert xs + ys == ys;
    } else {
      assert (xs + ys)[1..] == xs[1..] + ys;
      ReplayAppend(Act(r, xs[0], s), xs[1..], ys, s);
    }
  }

  method MatchFields(text: string, begin: nat) returns (trace: seq<Event>, end: nat)
    requires begin <= |text|
    ensures trace == FieldsAt(text, begin).trace && end == FieldsAt(text, begin).pos
  {
    FieldTerminates(HTTP);
    var matcher := new Matcher(HTTP, text);
    var ok;
    ok, end := matcher.Match(Star(Field()), begin);
    FieldsRun(HTTP, text, begin);
    trace := matcher.trace;
  }

  class HttpRequest {
    var headers: seq<Header>
    var current: Header

    constructor ()
      ensures headers == []
    {
      headers, current := [], Header("", "");
    }

    function Now(): Request
      reads this
    {
      Request(headers, current)
    }

    method SetFieldName(text: string)
      modifies this
      ensures headers == old(headers) && current == Header(text, "")
    {
      current := Header(text, "");
    }

    method SetFieldBody(text: string)
      modifies this
      ensures headers == old(headers)
      ensures current == Header(old(current.name), Appended(old(current.value), text))
    {
      var value := current.value;
      if value != "" { value := value + " "; }
      current := current.(value := value + text);
    }

    method AddHeader()
      modifies this
      ensures headers == old(headers) + [old(current)] && current == old(current)
    {
      headers := headers + [current];
    }

    /** Reads `*field`, from `begin` on. */
    method ReadFields(text: string, begin: nat) returns (end: nat)
      requires begin <= |text|
      modifies this
      ensures headers == old(headers) + HeadersAt(text, begin)
      ensures end == FieldsAt(text, begin).pos
    {
      var trace;
      trace, end := MatchFields(text, begin);
      ghost var was, collected := Now(), HeadersAt(text, begin);
      ghost var done := Replay(was, trace, text);
      assert done.headers == was.headers + collected by { FieldsReplay(was, text, begin); }
      for i := 0 to |trace|
        invariant done == Replay(Now(), trace[i..], text)
      {
        assert trace[i..][1..] == trace[i + 1..];
        Receive(trace[i], text);
      }
      assert trace[|trace|..] == [];
    }

    method Receive(e: Event, text: string)
      modifies this
      ensures Now() == Act(old(Now()), e, text)
    {
      if e.Fired? {
        var matched := Slice(text, e.from, e.to);
        if e.action == SET_FIELD_NAME { SetFieldName(matched); }
        else if e.action == SET_FIELD_BODY { SetFieldBody(matched); }
        else { AddHeader(); }
      }
    }
  }

  // ---- what they collect ----

  function FoldedValue(s: string, p: nat, value: string): string
    requires p <= |s|
    decreases |s| - p
  {
    var from := RunEnd(Space, s, p);
    if from == p then value else
    var to := BodyEnd(s, from);
    var more := Appended(value, s[from..to]);
    if to < |s| then FoldedValue(s, to + 2, more) else more
  }

  /** The value of a field whose body starts at `p`: its first line and the folds after it. */
  function BodyValue(s: string, p: nat): string
    requires p <= |s| && FieldBodyAt(s, p).ok
  {
    var from := RunEnd(Space, s, p);
    var to := BodyEnd(s, from);
    FoldedValue(s, to + 2, s[from..to])
  }

  function HeaderAt(s: string, p: nat): Header
    requires p <= |s| && FieldAt(s, p).ok
  {
    var n := NameEnd(s, p);
    Header(s[p..n], BodyValue(s, n + 1))
  }

  function HeadersAt(s: string, p: nat): seq<Header>
    requires p <= |s|
    decreases |s| - p
  {
    var o := FieldAt(s, p);
    if o.ok then [HeaderAt(s, p)] + HeadersAt(s, o.pos) else []
  }

  lemma {:induction false} FoldsReplay(r: Request, s: string, p: nat)
    requires p <= |s|
    ensures Replay(r, Folds(s, p).trace, s) == r.(current := r.current.(value := FoldedValue(s, p, r.current.value)))
    decreases |s| - p
  {
    var from := RunEnd(Space, s, p);
    if from > p {
      var line := LineAt(s, from);
      if line.ok {
        ReplayAppend(r, line.trace, Folds(s, line.pos).trace, s);
        FoldsReplay(Act(r, line.trace[0], s), s, line.pos);
      }
    }
  }

  lemma Regroup<T>(a: seq<T>, b: seq<T>, c: seq<T>)
    ensures (a + b) + c == a + (b + c)
  {
  }

  lemma ReplayOne(r: Request, e: Event, s: string)
    ensures Replay(r, [e], s) == Act(r, e, s)
  {
    assert [e][1..] == [];
  }

  lemma FieldReplay(r: Request, s: string, p: nat)
    requires p <= |s|
    ensures var o := FieldAt(s, p);
      Replay(r, o.trace, s).headers == r.headers + if o.ok then [HeaderAt(s, p)] else []
  {
    var n := NameEnd(s, p);
    var named := Fired(SET_FIELD_NAME, p, n);
    var r1 := Act(r, named, s);
    assert Replay(r, [named], s) == r1 by { ReplayOne(r, named, s); }
    var o := FieldAt(s, p);
    if n < |s| && s[n] == ':' {
      var body := FieldBodyAt(s, n + 1);
      assert o.trace == [named] + body.trace && o.ok == body.ok;
      assert Replay(r, o.trace, s) == Replay(r1, body.trace, s) by { ReplayAppend(r, [named], body.trace, s); }
      NamedReplay(r1, s, p, n);
    } else {
      assert o.trace == [named] && !o.ok;
    }
  }

  lemma NamedReplay(r: Request, s: string, p: nat, n: nat)
    requires p <= |s| && NameEnd(s, p) == n < |s| && s[n] == ':'
    requires r.current.value == "" && r.current.name == s[p..n]
    ensures var body := FieldBodyAt(s, n + 1);
      && body.ok == FieldAt(s, p).ok
      && Replay(r, body.trace, s).headers == r.headers + if body.ok then [HeaderAt(s, p)] else []
  {
    BodyReplay(r, s, n + 1);
  }

  lemma BodyReplay(r: Request, s: string, p: nat)
    requires p <= |s| && r.current.value == ""
    ensures var o := FieldBodyAt(s, p);
      Replay(r, o.trace, s).headers == r.headers + if o.ok then [Header(r.current.name, BodyValue(s, p))] else []
  {
    var from := RunEnd(Space, s, p);
    var to := BodyEnd(s, from);
    if to < |s| {
      var value := s[from..to];
      BodyIs(s, p, from, to, value);
      LineThenFolds(r, s, p, from, to, value);
    } else {
      LineActs(r, s, from, to);
      assert FieldBodyAt(s, p) == Outcome(false, p, [Fired(SET_FIELD_BODY, from, to)]);
    }
  }

  lemma BodyIs(s: string, p: nat, from: nat, to: nat, value: string)
    requires p <= |s| && RunEnd(Space, s, p) == from && BodyEnd(s, from) == to < |s| && s[from..to] == value
    ensures var o, folds := FieldBodyAt(s, p), Folds(s, to + 2);
      && o.ok && o.trace == [Fired(SET_FIELD_BODY, from, to)] + folds.trace + [Fired(ADD_HEADER, p, folds.pos)]
      && o.pos == folds.pos && BodyValue(s, p) == FoldedValue(s, to + 2, value)
  {
    var line := LineIs(s, from, to);
    LineThen(s, p, line, Folds(s, to + 2));
    ValueIs(s, p, from, to, value);
  }

  lemma LineIs(s: string, from: nat, to: nat) returns (line: Outcome)
    requires from <= |s| && BodyEnd(s, from) == to < |s|
    ensures line == LineAt(s, from) == Outcome(true, to + 2, [Fired(SET_FIELD_BODY, from, to)])
  {
    line := LineAt(s, from);
  }

  lemma LineThen(s: string, p: nat, line: Outcome, folds: Outcome)
    requires p <= |s| && line == LineAt(s, RunEnd(Space, s, p)) && line.ok && folds == Folds(s, line.pos)
    ensures FieldBodyAt(s, p) == Outcome(true, folds.pos, line.trace + folds.trace + [Fired(ADD_HEADER, p, folds.pos)])
  {
  }

  lemma ValueIs(s: string, p: nat, from: nat, to: nat, value: string)
    requires p <= |s| && RunEnd(Space, s, p) == from && BodyEnd(s, from) == to && to + 2 <= |s|
    requires s[from..to] == value && FieldBodyAt(s, p).ok
    ensures BodyValue(s, p) == FoldedValue(s, to + 2, value)
  {
  }

  /** The first line of a body becomes the value. */
  lemma LineActs(r: Request, s: string, from: nat, to: nat)
    requires from <= to <= |s| && r.current.value == ""
    ensures var r1 := Replay(r, [Fired(SET_FIELD_BODY, from, to)], s);
      r1.headers == r.headers && r1.current == Header(r.current.name, s[from..to])
  {
    ReplayOne(r, Fired(SET_FIELD_BODY, from, to), s);
  }

  lemma LineThenFolds(r: Request, s: string, p: nat, from: nat, to: nat, value: string)
    requires p <= from <= to && to + 2 <= |s| && r.current.value == "" && s[from..to] == value
    ensures var folds := Folds(s, to + 2);
      Replay(r, [Fired(SET_FIELD_BODY, from, to)] + folds.trace + [Fired(ADD_HEADER, p, folds.pos)], s).headers ==
        r.headers + [Header(r.current.name, FoldedValue(s, to + 2, value))]
  {
    var line, folds := [Fired(SET_FIELD_BODY, from, to)], Folds(s, to + 2);
    var added := Fired(ADD_HEADER, p, folds.pos);
    var r1 := Replay(r, line, s);
    var r2 := Replay(r1, folds.trace, s);
    LineActs(r, s, from, to);
    FoldsReplay(r1, s, to + 2);
    ReplayOne(r2, added, s);
    ReplayAppend(r, line, folds.trace, s);
    ReplayAppend(r, line + folds.trace, [added], s);
  }

  lemma {:induction false} FieldsReplay(r: Request, s: string, p: nat)
    requires p <= |s|
    ensures Replay(r, FieldsAt(s, p).trace, s).headers == r.headers + HeadersAt(s, p)
    decreases |s| - p
  {
    var o := FieldAt(s, p);
    FieldReplay(r, s, p);
    if o.ok {
      var next := Replay(r, o.trace, s);
      FieldsReplay(next, s, o.pos);
      Regroup(r.headers, [HeaderAt(s, p)], HeadersAt(s, o.pos));
      assert FieldsAt(s, p).trace == o.trace + FieldsAt(s, o.pos).trace;
      ReplayAppend(r, o.trace, FieldsAt(s, o.pos).trace, s);
    }
  }

  // ---- the printer ----

  function HeaderText(h: Header): string { h.name + ": " + h.value + CRLF }

  function Block(hs: seq<Header>): string
  {
    if hs == [] then "" else HeaderText(hs[0]) + Block(hs[1..])
  }

  lemma {:induction false} BlockAppend(hs: seq<Header>, h: Header)
    ensures Block(hs + [h]) == Block(hs) + HeaderText(h)
  {
    if hs == [] {
      assert (hs + [h])[1..] == [];
    } else {
      assert (hs + [h])[1..] == hs[1..] + [h];
      BlockAppend(hs[1..], h);
    }
  }

  /** `HeaderSet::operator std::string`: the block and an empty line. */
  method ToString(headers: seq<Header>) returns (r: string)
    ensures r == Block(headers) + CRLF
  {
    r := "";
    for i := 0 to |headers|
      invariant r == Block(headers[..i])
    {
      BlockAppend(headers[..i], headers[i]);
      assert headers[..i + 1] == headers[..i] + [headers[i]];
      r := r + headers[i].name + ": " + headers[i].value + CRLF;
    }
    assert headers[..|headers|] == headers;
    r := r + CRLF;
  }

  // ---- what the format can carry ----

  predicate NameOk(name: string) { forall i :: 0 <= i < |name| ==> IsNameChar(name[i]) }

  predicate NoLineEnd(v: string) { forall i :: 0 <= i < |v| ==> !LineEnd(v, i) }

  predicate ValueOk(v: string) { v != "" && !IsWhite(v[0]) && NoLineEnd(v) }

  predicate StartsSpaced(t: string) { t != "" && IsWhite(t[0]) }

  /** Names without colons and unprintable characters, of which only the first may start with a
      blank; values that are not empty, do not start with white space and hold no line end. */
  ghost predicate Portable(hs: seq<Header>)
  {
    && (forall k :: 0 <= k < |hs| ==> NameOk(hs[k].name) && ValueOk(hs[k].value))
    && (forall k :: 0 < k < |hs| ==> !StartsSpaced(hs[k].name))
  }

  // ---- reading one printed header ----

  lemma {:induction false} NameStops(s: string, p: nat, n: nat)
    requires p <= n < |s| && (forall i :: p <= i < n ==> IsNameChar(s[i])) && !IsNameChar(s[n])
    ensures NameEnd(s, p) == n
    decreases n - p
  {
    if p < n { NameStops(s, p + 1, n); }
  }

  lemma {:induction false} BodyStops(s: string, p: nat, b: nat)
    requires p <= b < |s| && LineEnd(s, b) && forall i :: p <= i < b ==> !LineEnd(s, i)
    ensures BodyEnd(s, p) == b
    decreases b - p
  {
    if p < b { BodyStops(s, p + 1, b); }
  }

  /** A value without a line end, followed by one, ends there; even when it ends in `\r`. */
  lemma FirstLineEnd(s: string, p: nat, v: string)
    requires p + |v| + 2 <= |s| && s[p..p + |v|] == v && LineEnd(s, p + |v|)
    requires NoLineEnd(v)
    ensures BodyEnd(s, p) == p + |v|
  {
    var b := p + |v|;
    forall i | p <= i < b ensures !LineEnd(s, i) {
      assert !LineEnd(v, i - p);
      assert s[i] == v[i - p] && (i + 1 < b ==> s[i + 1] == v[i - p + 1]);
    }
    BodyStops(s, p, b);
  }

  /** Where the parts of a printed header are. */
  lemma HeaderIsThere(s: string, p: nat, h: Header, rest: string)
    requires p <= |s| && s[p..] == HeaderText(h) + rest
    ensures var n := p + |h.name|;
      var b := n + 2 + |h.value|;
      && b + 2 <= |s|
      && s[p..n] == h.name && s[n] == ':' && s[n + 1] == ' '
      && s[n + 2..b] == h.value && LineEnd(s, b) && s[b + 2..] == rest
  {
    var t := s[p..];
    var n := |h.name|;
    var b := n + 2 + |h.value|;
    assert |t| == b + 2 + |rest|;
    assert s[p..p + n] == t[..n] && t[..n] == h.name;
    assert s[p + n] == t[n] && s[p + n + 1] == t[n + 1];
    assert s[p + n + 2..p + b] == t[n + 2..b] && t[n + 2..b] == h.value;
    assert s[p + b] == t[b] == CRLF[0] && s[p + b + 1] == t[b + 1] == CRLF[1];
    assert s[p + b + 2..] == t[b + 2..] && t[b + 2..] == rest;
  }

  lemma FieldIs(s: string, p: nat, n: nat)
    requires p <= |s| && NameEnd(s, p) == n < |s| && s[n] == ':'
    ensures var body := FieldBodyAt(s, n + 1);
      && FieldAt(s, p).ok == body.ok && FieldAt(s, p).pos == body.pos
      && (body.ok ==> HeaderAt(s, p) == Header(s[p..n], BodyValue(s, n + 1)))
  {
  }

  lemma FieldWith(s: string, p: nat, n: nat, from: nat, to: nat, c: nat, name: string, value: string)
    requires p <= |s| && NameEnd(s, p) == n < |s| && s[n] == ':' && s[p..n] == name
    requires RunEnd(Space, s, n + 1) == from && BodyEnd(s, from) == to && to + 2 == c <= |s| && s[from..to] == value
    ensures FieldAt(s, p).ok && FieldAt(s, p).pos == Folds(s, c).pos
    ensures HeaderAt(s, p) == Header(name, FoldedValue(s, c, value))
  {
    BodyIs(s, n + 1, from, to, value);
    FieldIs(s, p, n);
  }

  /** The parts of a field that is read: its name and the first line of its value, which ends before `c`. */
  lemma FieldParts(s: string, p: nat)
    returns (n: nat, from: nat, to: nat, c: nat, name: string, first: string)
    requires p <= |s| && FieldAt(s, p).ok
    ensures NameEnd(s, p) == n < |s| && s[n] == ':' && s[p..n] == name
    ensures RunEnd(Space, s, n + 1) == from && BodyEnd(s, from) == to < |s| && to + 2 == c <= |s|
    ensures s[from..to] == first && HeaderAt(s, p) == Header(name, FoldedValue(s, c, first))
  {
    n, from, to := FieldEnds(s, p);
    c, name, first := to + 2, s[p..n], s[from..to];
    FieldWith(s, p, n, from, to, c, name, first);
  }

  lemma FieldEnds(s: string, p: nat) returns (n: nat, from: nat, to: nat)
    requires p <= |s| && FieldAt(s, p).ok
    ensures NameEnd(s, p) == n < |s| && s[n] == ':'
    ensures RunEnd(Space, s, n + 1) == from && BodyEnd(s, from) == to < |s|
  {
    n := NameEnd(s, p);
    assert FieldBodyAt(s, n + 1).ok;
    from := RunEnd(Space, s, n + 1);
    to := BodyEnd(s, from);
  }

  lemma BlankStops(s: string, p: nat)
    requires p + 1 < |s| && s[p] == ' ' && !InClass(Space, s[p + 1])
    ensures RunEnd(Space, s, p) == p + 1
  {
    assert RunEnd(Space, s, p + 1) == p + 1;
  }

  /** Where the reader finds the ends of the name, the blank and the value. */
  lemma HeaderEnds(s: string, p: nat, h: Header, rest: string) returns (n: nat, from: nat, to: nat)
    requires p <= |s| && s[p..] == HeaderText(h) + rest
    requires NameOk(h.name) && ValueOk(h.value)
    ensures NameEnd(s, p) == n < |s| && s[n] == ':' && s[p..n] == h.name
    ensures RunEnd(Space, s, n + 1) == from && BodyEnd(s, from) == to < |s| && s[from..to] == h.value
    ensures to + 2 == |s| - |rest| && s[to + 2..] == rest
  {
    HeaderIsThere(s, p, h, rest);
    n := p + |h.name|;
    from := n + 2;
    to := from + |h.value|;
    forall i | p <= i < n ensures IsNameChar(s[i]) { assert s[i] == s[p..n][i - p]; }
    assert NameEnd(s, p) == n by { NameStops(s, p, n); }
    assert s[from] == h.value[0] by { assert s[from..to][0] == s[from]; }
    assert RunEnd(Space, s, n + 1) == from by { BlankStops(s, n + 1); }
    assert BodyEnd(s, from) == to by { FirstLineEnd(s, from, h.value); }
  }

  /** What does not start with white space is no fold. */
  lemma NoFold(s: string, c: nat, value: string)
    requires c <= |s| && !StartsSpaced(s[c..])
    ensures Folds(s, c).pos == c && FoldedValue(s, c, value) == value
  {
    assert RunEnd(Space, s, c) == c by { if c < |s| { assert s[c..][0] == s[c]; } }
  }

  lemma AppendGrows(value: string, piece: string)
    ensures |Appended(value, piece)| >= |value|
    ensures value != "" ==> |Appended(value, piece)| > |value|
  {
  }

  /** Every fold makes a value longer. */
  lemma {:induction false} FoldsGrow(s: string, c: nat, value: string)
    requires c <= |s|
    ensures |FoldedValue(s, c, value)| >= |value|
    ensures RunEnd(Space, s, c) > c && value != "" ==> |FoldedValue(s, c, value)| > |value|
    decreases |s| - c
  {
    var from := RunEnd(Space, s, c);
    if from > c {
      var more, d := OneFold(s, c, from, value);
      if d <= |s| { FoldsGrow(s, d, more); }
    }
  }

  /** One fold: what the value becomes, and where the next line starts unless the text ends here. */
  lemma OneFold(s: string, c: nat, from: nat, value: string) returns (more: string, d: nat)
    requires c < from <= |s| && from == RunEnd(Space, s, c)
    ensures c < d && |more| >= |value| && (value != "" ==> |more| > |value|)
    ensures FoldedValue(s, c, value) == if d <= |s| then FoldedValue(s, d, more) else more
  {
    var to := BodyEnd(s, from);
    more, d := Appended(value, s[from..to]), to + 2;
    AppendGrows(value, s[from..to]);
  }

  /** What does is one. */
  lemma FoldLengthens(s: string, c: nat, value: string)
    requires c <= |s| && StartsSpaced(s[c..]) && value != ""
    ensures |FoldedValue(s, c, value)| > |value|
  {
    assert RunEnd(Space, s, c) > c by { SpaceRuns(s, c); }
    FoldsGrow(s, c, value);
  }

  lemma SpaceRuns(s: string, c: nat)
    requires c <= |s| && StartsSpaced(s[c..])
    ensures RunEnd(Space, s, c) > c
  {
    assert s[c..][0] == s[c];
    assert RunEnd(Space, s, c) == RunEnd(Space, s, c + 1);
  }

  lemma BlockStart(hs: seq<Header>)
    ensures StartsSpaced(Block(hs)) <==> hs != [] && StartsSpaced(hs[0].name)
  {
  }

  // ---- the round trip ----

  /** A printed header is read up to its line end, and the folds after it are added to its value. */
  lemma FirstReads(s: string, p: nat, h: Header, rest: string) returns (c: nat)
    requires p <= |s| && s[p..] == HeaderText(h) + rest && NameOk(h.name) && ValueOk(h.value)
    ensures p < c <= |s| && s[c..] == rest && FieldAt(s, p).ok && FieldAt(s, p).pos == Folds(s, c).pos
    ensures HeaderAt(s, p) == Header(h.name, FoldedValue(s, c, h.value))
  {
    var n, from, to;
    n, from, to, c := HeaderStands(s, p, h, rest);
    FieldWith(s, p, n, from, to, c, h.name, h.value);
  }

  /** Where the parts of a printed header end, without its text. */
  lemma HeaderStands(s: string, p: nat, h: Header, rest: string) returns (n: nat, from: nat, to: nat, c: nat)
    requires p <= |s| && s[p..] == HeaderText(h) + rest && NameOk(h.name) && ValueOk(h.value)
    ensures NameEnd(s, p) == n < |s| && s[n] == ':' && s[p..n] == h.name
    ensures RunEnd(Space, s, n + 1) == from && BodyEnd(s, from) == to < |s| && s[from..to] == h.value
    ensures p < c == to + 2 <= |s| && s[c..] == rest
  {
    n, from, to := HeaderEnds(s, p, h, rest);
    c := to + 2;
  }

  /** Printing and reading gives the headers back in order, and all of the text is read. */
  lemma {:induction false} PortableReads(s: string, p: nat, hs: seq<Header>)
    requires p <= |s| && s[p..] == Block(hs) && Portable(hs)
    ensures HeadersAt(s, p) == hs && FieldsAt(s, p).pos == |s|
    decreases hs
  {
    if hs == [] {
      assert p == |s|;
    } else {
      var rest := Block(hs[1..]);
      RestIsPortable(hs);
      var c := FirstReads(s, p, hs[0], rest);
      BlockStart(hs[1..]);
      NoFold(s, c, hs[0].value);
      PortableReads(s, c, hs[1..]);
      FirstOf(hs);
    }
  }

  lemma RestIsPortable(hs: seq<Header>)
    requires hs != [] && Portable(hs)
    ensures Portable(hs[1..]) && NameOk(hs[0].name) && ValueOk(hs[0].value)
    ensures |hs| > 1 ==> !StartsSpaced(hs[1..][0].name)
  {
  }

  lemma FirstOf(hs: seq<Header>)
    requires hs != []
    ensures hs == [Header(hs[0].name, hs[0].value)] + hs[1..]
  {
  }

  // ---- what a parsed header looks like, whatever was read ----

  lemma {:induction false} NameCharsBefore(s: string, p: nat)
    requires p <= |s|
    ensures NameOk(s[p..NameEnd(s, p)])
    decreases |s| - p
  {
    if p < |s| && IsNameChar(s[p]) {
      NameCharsBefore(s, p + 1);
      var n := NameEnd(s, p);
      assert s[p..n] == [s[p]] + s[p + 1..n];
    }
  }

  lemma {:induction false} NoLineEndBefore(s: string, p: nat)
    requires p <= |s|
    ensures NoLineEnd(s[p..BodyEnd(s, p)])
    decreases |s| - p
  {
    if p < |s| && !LineEnd(s, p) {
      NoLineEndBefore(s, p + 1);
      var b := BodyEnd(s, p);
      var v, w := s[p..b], s[p + 1..b];
      forall i | 0 <= i < |v| ensures !LineEnd(v, i) {
        if i > 0 {
          assert !LineEnd(w, i - 1);
          assert v[i] == w[i - 1] && (i + 1 < |v| ==> v[i + 1] == w[i]);
        }
      }
    }
  }

  lemma JoinedHasNoLineEnd(v: string, piece: string)
    requires NoLineEnd(v) && NoLineEnd(piece)
    ensures NoLineEnd(Appended(v, piece))
  {
    var t := Appended(v, piece);
    forall i | 0 <= i < |t| ensures !LineEnd(t, i) {
      if v == "" {
        assert !LineEnd(piece, i);
      } else if i < |v| {
        assert !LineEnd(v, i);
      } else if i > |v| {
        assert !LineEnd(piece, i - |v| - 1);
      }
    }
  }

  lemma {:induction false} FoldedStaysOk(s: string, p: nat, value: string)
    requires p <= |s| && ValueOk(value)
    ensures ValueOk(FoldedValue(s, p, value))
    decreases |s| - p
  {
    var from := RunEnd(Space, s, p);
    if from > p {
      var to := BodyEnd(s, from);
      assert NoLineEnd(s[from..to]) by { NoLineEndBefore(s, from); }
      var more := Appended(value, s[from..to]);
      assert ValueOk(more) by { JoinedIsOk(value, s[from..to]); }
      if to < |s| { FoldedStaysOk(s, to + 2, more); }
    }
  }

  lemma JoinedIsOk(value: string, piece: string)
    requires ValueOk(value) && NoLineEnd(piece)
    ensures ValueOk(Appended(value, piece))
  {
    JoinedHasNoLineEnd(value, piece);
    assert Appended(value, piece)[0] == value[0];
  }

  lemma {:induction false} RunEndStops(c: CharClass, s: string, p: nat)
    requires p <= |s|
    ensures RunEnd(c, s, p) < |s| ==> !InClass(c, s[RunEnd(c, s, p)])
    decreases |s| - p
  {
    if p < |s| && InClass(c, s[p]) { RunEndStops(c, s, p + 1); }
  }

  lemma FirstPieceOk(s: string, p: nat)
    requires p <= |s| && BodyEnd(s, RunEnd(Space, s, p)) < |s|
    ensures var from := RunEnd(Space, s, p); ValueOk(s[from..BodyEnd(s, from)])
  {
    var from := RunEnd(Space, s, p);
    RunEndStops(Space, s, p);
    NoLineEndBefore(s, from);
    assert BodyEnd(s, from) > from;
  }

  lemma ValueFrom(s: string, q: nat, from: nat, to: nat, first: string, c: nat, value: string)
    requires q <= |s| && RunEnd(Space, s, q) == from && BodyEnd(s, from) == to < |s| && s[from..to] == first
    requires c == to + 2 && value == FoldedValue(s, c, first)
    ensures ValueOk(value)
  {
    FirstPieceOk(s, q);
    FoldedStaysOk(s, c, first);
  }

  /** Only such names and values are ever collected. */
  lemma HeaderAtIsOk(s: string, p: nat)
    requires p <= |s| && FieldAt(s, p).ok
    ensures NameOk(HeaderAt(s, p).name) && ValueOk(HeaderAt(s, p).value)
  {
    var name, value := PartsAreOk(s, p);
    assert HeaderAt(s, p) == Header(name, value);
  }

  lemma PartsAreOk(s: string, p: nat) returns (name: string, value: string)
    requires p <= |s| && FieldAt(s, p).ok
    ensures HeaderAt(s, p) == Header(name, value) && NameOk(name) && ValueOk(value)
  {
    var n, from, to, c, first;
    n, from, to, c, name, first := FieldParts(s, p);
    value := FoldedValue(s, c, first);
    NameFrom(s, p, n, name);
    ValueFrom(s, n + 1, from, to, first, c, value);
  }

  lemma NameFrom(s: string, p: nat, n: nat, name: string)
    requires p <= |s| && NameEnd(s, p) == n && s[p..n] == name
    ensures NameOk(name)
  {
    NameCharsBefore(s, p);
  }

  /** When the first header comes back, it is portable and the next one starts no fold. */
  lemma FirstIsPortable(s: string, p: nat, h: Header, rest: string) returns (c: nat)
    requires p <= |s| && s[p..] == HeaderText(h) + rest
    requires FieldAt(s, p).ok && HeaderAt(s, p) == h
    ensures NameOk(h.name) && ValueOk(h.value) && !StartsSpaced(rest)
    ensures c <= |s| && s[c..] == rest && FieldAt(s, p).pos == c
  {
    HeaderAtIsOk(s, p);
    c := FirstReads(s, p, h, rest);
    if StartsSpaced(rest) { FoldLengthens(s, c, h.value); }
    NoFold(s, c, h.value);
  }

  /** And headers that come back are portable. */
  lemma {:induction false} ReadsPortable(s: string, p: nat, hs: seq<Header>)
    requires p <= |s| && s[p..] == Block(hs) && HeadersAt(s, p) == hs
    ensures Portable(hs)
    decreases hs
  {
    if hs != [] {
      assert FieldAt(s, p).ok && HeaderAt(s, p) == hs[0];
      var c := FirstIsPortable(s, p, hs[0], Block(hs[1..]));
      assert HeadersAt(s, c) == hs[1..];
      ReadsPortable(s, c, hs[1..]);
      BlockStart(hs[1..]);
      NextIsPortable(hs);
    }
  }

  lemma NextIsPortable(hs: seq<Header>)
    requires hs != [] && NameOk(hs[0].name) && ValueOk(hs[0].value)
    requires Portable(hs[1..]) && (|hs| > 1 ==> !StartsSpaced(hs[1].name))
    ensures Portable(hs)
  {
    assert forall k :: 0 < k < |hs| ==> hs[k] == hs[1..][k - 1];
  }

  /** Headers come back from their printed block exactly when they are portable. */
  lemma HeadersRoundTrip(hs: seq<Header>)
    ensures HeadersAt(Block(hs), 0) == hs <==> Portable(hs)
    ensures Portable(hs) ==> FieldsAt(Block(hs), 0).pos == |Block(hs)|
  {
    var s := Block(hs);
    assert s[0..] == s;
    if Portable(hs) { PortableReads(s, 0, hs); }
    if HeadersAt(s, 0) == hs { ReadsPortable(s, 0, hs); }
  }

  // ---- folded values ----

  /** A line that continues a value: white space, and then more of it. */
  datatype Fold = Fold(gap: string, line: string)

  predicate FoldOk(f: Fold)
  {
    f.gap != "" && (forall i :: 0 <= i < |f.gap| ==> IsWhite(f.gap[i])) && ValueOk(f.line)
  }

  function FoldsText(folds: seq<Fold>): string
  {
    if folds == [] then "" else folds[0].gap + folds[0].line + "\r\n" + FoldsText(folds[1..])
  }

  /** The pieces of a value with one blank between them. */
  function Joined(value: string, folds: seq<Fold>): string
    decreases folds
  {
    if folds == [] then value else Joined(value + " " + folds[0].line, folds[1..])
  }

  lemma {:induction false} WhiteRun(s: string, p: nat, q: nat)
    requires p <= q < |s| && (forall i :: p <= i < q ==> IsWhite(s[i])) && !IsWhite(s[q])
    ensures RunEnd(Space, s, p) == q
    decreases q - p
  {
    SpaceIsWhite(s[p]);
    if p < q { WhiteRun(s, p + 1, q); }
  }

  /** Where the parts of a folded line are. */
  lemma FoldIsThere(s: string, c: nat, f: Fold, rest: string) returns (from: nat, to: nat)
    requires c <= |s| && s[c..] == f.gap + f.line + "\r\n" + rest && FoldOk(f)
    ensures c < from == c + |f.gap| && to == from + |f.line| && to + 2 <= |s| && s[from..to] == f.line
    ensures RunEnd(Space, s, c) == from && BodyEnd(s, from) == to && s[to + 2..] == rest
  {
    from, to := c + |f.gap|, c + |f.gap| + |f.line|;
    var t, n, b := s[c..], |f.gap|, |f.gap| + |f.line|;
    assert |t| == b + 2 + |rest|;
    assert s[c..from] == t[..n] && t[..n] == f.gap;
    assert s[from..to] == t[n..b] && t[n..b] == f.line;
    assert s[to] == t[b] == '\r' && s[to + 1] == t[b + 1] == '\n';
    assert s[to + 2..] == t[b + 2..] && t[b + 2..] == rest;
    forall i | c <= i < from ensures IsWhite(s[i]) { assert s[i] == s[c..from][i - c]; }
    assert s[from] == s[from..to][0];
    WhiteRun(s, c, from);
    FirstLineEnd(s, from, f.line);
  }

  lemma FoldStep(s: string, c: nat, from: nat, to: nat, d: nat, line: string, value: string)
    requires c < from && from <= |s| && RunEnd(Space, s, c) == from && BodyEnd(s, from) == to && to + 2 == d <= |s|
    requires s[from..to] == line && value != ""
    ensures FoldedValue(s, c, value) == FoldedValue(s, d, value + " " + line) && Folds(s, c).pos == Folds(s, d).pos
  {
    ValueUnfolds(s, c, from, to, value);
    FoldsUnfold(s, c, from, to);
  }

  lemma ValueUnfolds(s: string, c: nat, from: nat, to: nat, value: string)
    requires c < from <= |s| && RunEnd(Space, s, c) == from && BodyEnd(s, from) == to < |s|
    ensures FoldedValue(s, c, value) == FoldedValue(s, to + 2, Appended(value, s[from..to]))
  {
  }

  lemma FoldsUnfold(s: string, c: nat, from: nat, to: nat)
    requires c < from <= |s| && RunEnd(Space, s, c) == from && BodyEnd(s, from) == to < |s|
    ensures Folds(s, c).pos == Folds(s, to + 2).pos
  {
  }

  lemma NextFold(s: string, c: nat, value: string, f: Fold, rest: string) returns (d: nat)
    requires c <= |s| && s[c..] == f.gap + f.line + "\r\n" + rest && FoldOk(f) && value != ""
    ensures c < d <= |s| && s[d..] == rest
    ensures FoldedValue(s, c, value) == FoldedValue(s, d, value + " " + f.line) && Folds(s, c).pos == Folds(s, d).pos
  {
    var from, to := FoldIsThere(s, c, f, rest);
    d := to + 2;
    FoldStep(s, c, from, to, d, f.line, value);
  }

  lemma {:induction false} FoldsJoin(s: string, c: nat, value: string, folds: seq<Fold>, rest: string)
    requires c <= |s| && s[c..] == FoldsText(folds) + rest && (forall f :: f in folds ==> FoldOk(f))
    requires value != "" && !StartsSpaced(rest)
    ensures FoldedValue(s, c, value) == Joined(value, folds) && Folds(s, c).pos == |s| - |rest|
    decreases folds
  {
    if folds == [] {
      assert s[c..] == rest;
      NoFold(s, c, value);
    } else {
      var f, more := folds[0], FoldsText(folds[1..]) + rest;
      assert f in folds && s[c..] == f.gap + f.line + "\r\n" + more;
      var d := NextFold(s, c, value, f, more);
      FoldsJoin(s, d, value + " " + f.line, folds[1..], rest);
    }
  }

  /** A value that goes on over several lines, each starting with white space, is read as its pieces
      with one blank between them. */
  lemma FoldedHeaderReads(name: string, first: string, folds: seq<Fold>, rest: string)
    requires NameOk(name) && ValueOk(first) && (forall f :: f in folds ==> FoldOk(f)) && !StartsSpaced(rest)
    ensures var s := name + ": " + first + "\r\n" + FoldsText(folds) + rest;
      && FieldAt(s, 0).ok && FieldAt(s, 0).pos == |s| - |rest|
      && HeaderAt(s, 0) == Header(name, Joined(first, folds))
  {
    var s := name + ": " + first + "\r\n" + FoldsText(folds) + rest;
    var h, more := Header(name, first), FoldsText(folds) + rest;
    assert s[0..] == s && s == HeaderText(h) + more;
    var c := FirstReads(s, 0, h, more);
    FoldsJoin(s, c, first, folds, rest);
  }
}
