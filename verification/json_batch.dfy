/** A request body holds JSON objects one after the other (`process_body` in
    src/handlers/http-json-rpc/http_handler.cc): `parse` is called until it finds no value. */
module JsonBatch {
  import opened Grammars
  import opened Engine
  import opened EngineLaws
  import opened JsonGrammar
  import opened JsonMatching
  import opened Json
  import opened Builder
  import opened JsonParse
  import opened JsonRoundTrip
  import opened JsonTheorems
  import opened JsonReader
  import opened JsonFaults

  /** How the loop ended: no further value, with the position it reached, or an exception, from an
      action of the parser or because a document is not an object. */
  datatype Ending = Stopped(pos: nat) | Aborted(fault: Fault)

  function Split(s: string, p: nat): (seq<Value>, Ending)
    requires p <= |s|
    decreases |s| - p
  {
    var (r, q) := Parse(s, p);
    match r
    case Threw(f) => ([], Aborted(f))
    case Returned(v) =>
      if v == Nil then ([], Stopped(q))
      else if !v.Object? then ([], Aborted(WrongType))
      else var (rest, end) := Split(s, q); ([v] + rest, end)
  }

  method SplitBody(s: string) returns (calls: seq<Value>, end: Ending)
    ensures (calls, end) == Split(s, 0)
  {
    calls := [];
    var begin := 0;
    while true
      invariant 0 <= begin <= |s|
      invariant Split(s, 0).0 == calls + Split(s, begin).0 && Split(s, 0).1 == Split(s, begin).1
      decreases |s| - begin
    {
      assert calls + [] == calls;
      var call;
      call, begin := ParseText(s, begin);
      if call.Threw? {
        return calls, Aborted(call.fault);
      }
      if call.value == Nil {
        return calls, Stopped(begin);
      }
      if !call.value.Object? {
        return calls, Aborted(WrongType);
      }
      calls := calls + [call.value];
    }
  }

  /** White space and then an object, several times over. */
  datatype Doc = Doc(gap: string, value: Value)

  predicate GoodDoc(d: Doc) { IsGap(d.gap) && d.value.Object? && Faithful(d.value) && Canonical(d.value) }

  function Body(docs: seq<Doc>, tail: string): string
  {
    if docs == [] then tail else docs[0].gap + Text(docs[0].value) + Body(docs[1..], tail)
  }

  function Values(docs: seq<Doc>): seq<Value>
  {
    if docs == [] then [] else [docs[0].value] + Values(docs[1..])
  }

  lemma {:induction false} RunEndTwice(c: CharClass, s: string, p: nat)
    requires p <= |s|
    ensures RunEnd(c, s, RunEnd(c, s, p)) == RunEnd(c, s, p)
    decreases |s| - p
  {
    if p < |s| && InClass(c, s[p]) { RunEndTwice(c, s, p + 1); }
  }

  lemma NoValueAtEnd(g: Grammar, s: string)
    requires Ready(g)
    ensures Eval(g, VALUE, s, |s|) == No(|s|)
  {
    ValueIs(g, s, |s|);
  }

  /** At the end of the text `parse` finds nothing, calls nothing and stays there. */
  lemma NothingLeft(s: string, p: nat)
    requires p <= |s| && RunEnd(Space, s, p) == |s|
    ensures Parse(s, p) == (Returned(Nil), |s|)
  {
    var g := ParseIs(s, p);
    DocumentRuns(g, s, p);
    NoValueAtEnd(g, s);
  }

  lemma SplitStops(s: string, p: nat)
    requires p <= |s| && Parse(s, p) == (Returned(Nil), |s|)
    ensures Split(s, p) == ([], Stopped(|s|))
  {
  }

  /** Printed objects are self-delimiting: a body made of any number of them, with or without
      white space around them, is split into exactly those objects, in order, to its end. */
  lemma BatchRoundTrip(docs: seq<Doc>, tail: string)
    requires (forall d :: d in docs ==> GoodDoc(d)) && IsGap(tail)
    ensures var s := Body(docs, tail); Split(s, 0) == (Values(docs), Stopped(|s|))
  {
    var s := Body(docs, tail);
    var start, p := SplitsUpTo(docs, tail);
    GapRun(s, start, tail);
    NothingLeft(s, p);
    SplitStops(s, p);
    Regroup(Nil, Values(docs), []);
  }

  /** A value that is no object ends the batch: the objects before it stand, and the request is refused
      as one of the wrong type. */
  lemma OtherValueAborts(docs: seq<Doc>, gap: string, v: Value)
    requires (forall d :: d in docs ==> GoodDoc(d)) && IsGap(gap) && Faithful(v) && !v.Object?
    ensures Split(Body(docs, gap + Text(v)), 0) == (Values(docs), Aborted(WrongType))
  {
    var s, p, q := LastAt(docs, gap, v);
    ParseReadsText(v, s, p);
    assert Values(docs) + [] == Values(docs);
  }

  /** So does one with a number that does not fit, object or not, as out of range. */
  lemma MisfitAborts(docs: seq<Doc>, gap: string, v: Value)
    requires (forall d :: d in docs ==> GoodDoc(d)) && IsGap(gap) && Spelled(v) && !NumbersFit(v)
    ensures Split(Body(docs, gap + Text(v)), 0) == (Values(docs), Aborted(OutOfRange))
  {
    var s, p, q := LastAt(docs, gap, v);
    var g := ParseIs(s, p);
    ReadsValue(g, v, s, q);
    DocumentReads(g, s, p, |s|, Events(v));
    ReplayOverflows(Start(), v);
    assert Values(docs) + [] == Values(docs);
  }

  /** The last value of a body, and where the split comes to it. */
  lemma LastAt(docs: seq<Doc>, gap: string, v: Value) returns (s: string, p: nat, q: nat)
    requires (forall d :: d in docs ==> GoodDoc(d)) && IsGap(gap) && Spelled(v)
    ensures s == Body(docs, gap + Text(v)) && p <= |s| && q == RunEnd(Space, s, p) && q + |Text(v)| == |s|
    ensures HasAt(s, q, Text(v)) && Split(s, 0) == (Values(docs) + Split(s, p).0, Split(s, p).1)
  {
    s := Body(docs, gap + Text(v));
    TextLeads(v);
    var start;
    start, p := SplitsUpTo(docs, gap + Text(v));
    q := ValueThere(s, start, gap, Text(v));
  }

  lemma ValueThere(s: string, start: nat, gap: string, text: string) returns (q: nat)
    requires start <= |s| && HasAt(s, start, gap + text) && IsGap(gap) && text != "" && !InClass(Space, text[0])
    ensures q == start + |gap| <= |s| && RunEnd(Space, s, start) == q && HasAt(s, q, text)
  {
    q := start + |gap|;
    SplitAt(s, start, gap, text);
    FirstAt(s, q, text);
    SpaceIsWhite(s[q]);
    GapRun(s, start, gap);
  }

  /** The objects in front are split off, whatever comes after them. */
  lemma SplitsUpTo(docs: seq<Doc>, tail: string) returns (start: nat, p: nat)
    requires forall d :: d in docs ==> GoodDoc(d)
    ensures var s := Body(docs, tail);
      && start + |tail| == |s| && HasAt(s, start, tail)
      && p <= |s| && RunEnd(Space, s, p) == RunEnd(Space, s, start)
      && Split(s, 0) == (Values(docs) + Split(s, p).0, Split(s, p).1)
  {
    var s := Body(docs, tail);
    AllThere(s);
    start, p := SplitsAt(docs, tail, s, 0, 0);
  }

  lemma AllThere(s: string)
    ensures HasAt(s, 0, s)
  {
    assert s[0..|s|] == s;
  }

  /** The same from a position `p` that has already passed white space before `start`. */
  lemma {:induction false} SplitsAt(docs: seq<Doc>, tail: string, s: string, p: nat, start: nat)
    returns (last: nat, r: nat)
    requires forall d :: d in docs ==> GoodDoc(d)
    requires p <= |s| && start <= |s| && RunEnd(Space, s, p) == RunEnd(Space, s, start)
    requires HasAt(s, start, Body(docs, tail)) && start + |Body(docs, tail)| == |s|
    ensures last + |tail| == |s| && HasAt(s, last, tail)
    ensures r <= |s| && RunEnd(Space, s, r) == RunEnd(Space, s, last)
    ensures Split(s, p) == (Values(docs) + Split(s, r).0, Split(s, r).1)
    decreases docs
  {
    if docs == [] {
      last, r := start, p;
      assert [] + Split(s, r).0 == Split(s, r).0;
    } else {
      var d := docs[0];
      assert d in docs;
      var q, end := DocAt(d, Body(docs[1..], tail), s, start);
      var next := RunEnd(Space, s, end);
      DocParses(d, s, p, q, end);
      RunEndTwice(Space, s, end);
      last, r := SplitsAt(docs[1..], tail, s, next, end);
      SplitsFirst(d.value, s, p, next);
      Regroup(d.value, Values(docs[1..]), Split(s, r).0);
    }
  }

  lemma Regroup(v: Value, vs: seq<Value>, more: seq<Value>)
    ensures [v] + (vs + more) == ([v] + vs) + more && vs + [] == vs
  {
  }

  lemma DocParses(d: Doc, s: string, p: nat, q: nat, r: nat)
    requires GoodDoc(d) && p <= |s| && q == RunEnd(Space, s, p) && r == q + |Text(d.value)|
    requires HasAt(s, q, Text(d.value)) && Follows(d.value, s, r)
    ensures Parse(s, p) == (Returned(d.value), RunEnd(Space, s, r))
  {
    ParseReadsText(d.value, s, p);
    CanonicalIsStored(d.value);
  }

  lemma SplitsFirst(v: Value, s: string, p: nat, next: nat)
    requires p < next <= |s| && Parse(s, p) == (Returned(v), next) && v.Object?
    ensures Split(s, p) == ([v] + Split(s, next).0, Split(s, next).1)
  {
  }

  /** Where the next object begins and ends. */
  lemma DocAt(d: Doc, rest: string, s: string, start: nat) returns (q: nat, r: nat)
    requires GoodDoc(d) && start <= |s| && HasAt(s, start, d.gap + Text(d.value) + rest)
    ensures start <= q < r <= |s| && RunEnd(Space, s, start) == q && HasAt(s, q, Text(d.value))
    ensures q == start + |d.gap| && r == q + |Text(d.value)| && HasAt(s, r, rest)
  {
    q := start + |d.gap|;
    r := q + |Text(d.value)|;
    SplitAt(s, start, d.gap + Text(d.value), rest);
    SplitAt(s, start, d.gap, Text(d.value));
    FirstAt(s, q, Text(d.value));
    GapRun(s, start, d.gap);
  }
}
