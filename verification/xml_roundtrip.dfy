/** What the XML writer writes for a tree reads back as that tree (sections 2.4 and 3.1 of
    XML 1.0). */
module XmlRoundTrip {
  import opened XmlWriter

  datatype Attr = Attr(name: string, value: string)

  datatype Node = Data(text: string) | Tag(name: string, attrs: seq<Attr>, content: seq<Node>)

  // ---- writing a tree ----

  function AttrCalls(attrs: seq<Attr>): seq<Call>
  {
    if attrs == [] then [] else [Attribute(attrs[0].name, attrs[0].value)] + AttrCalls(attrs[1..])
  }

  /** The calls of a program that writes the tree, attributes first. */
  function Calls(n: Node): seq<Call>
  {
    match n
    case Data(text) => [Text(text)]
    case Tag(name, attrs, content) => [Begin(name)] + AttrCalls(attrs) + AllCalls(content) + [End]
  }

  function AllCalls(ns: seq<Node>): seq<Call>
  {
    if ns == [] then [] else Calls(ns[0]) + AllCalls(ns[1..])
  }

  datatype Ran = Ran(out: Out) | Failed

  /** Makes the calls one after the other; an exception ends it. */
  function Run(o: Out, calls: seq<Call>): Ran
    decreases calls
  {
    if calls == [] then Ran(o)
    else if !Callable(o, calls[0]) then Failed
    else
      var (n, status) := Step(o, calls[0]);
      if status == Done then Run(n, calls[1..]) else Failed
  }

  // ---- what it should look like ----

  function AttrText(a: Attr): string { " " + a.name + "=\"" + Mapped(a.value) + "\"" }

  function AttrsText(attrs: seq<Attr>): string
  {
    if attrs == [] then "" else AttrText(attrs[0]) + AttrsText(attrs[1..])
  }

  /** An element without content is closed in its start tag. */
  function Rendered(n: Node): string
  {
    match n
    case Data(text) => Mapped(text)
    case Tag(name, attrs, content) =>
      "<" + name + AttrsText(attrs) +
      if content == [] then "/>" else ">" + AllRendered(content) + "</" + name + ">"
  }

  function AllRendered(ns: seq<Node>): string
  {
    if ns == [] then "" else Rendered(ns[0]) + AllRendered(ns[1..])
  }

  lemma {:induction false} RunJoins(o: Out, xs: seq<Call>, ys: seq<Call>)
    ensures Run(o, xs + ys) == match Run(o, xs) case Ran(n) => Run(n, ys) case Failed => Failed
    decreases xs
  {
    if xs == [] {
      assert xs + ys == ys;
    } else {
      assert (xs + ys)[1..] == xs[1..] + ys;
      if Callable(o, xs[0]) { RunJoins(Step(o, xs[0]).0, xs[1..], ys); }
    }
  }

  lemma RunOne(o: Out, c: Call)
    requires Callable(o, c) && Step(o, c).1 == Done
    ensures Run(o, [c]) == Ran(Step(o, c).0)
  {
    assert [c][1..] == [];
  }

  lemma RunCons(o: Out, c: Call, rest: seq<Call>)
    requires Callable(o, c) && Step(o, c).1 == Done
    ensures Run(o, [c] + rest) == Run(Step(o, c).0, rest)
  {
    assert ([c] + rest)[1..] == rest;
  }

  lemma AddsAttr(stream: string, a: Attr, rest: string)
    ensures stream + " " + a.name + "=\"" + Mapped(a.value) + "\"" + rest == stream + (AttrText(a) + rest)
  {
  }

  lemma {:induction false} AttrsRun(o: Out, attrs: seq<Attr>)
    requires o.open != [] && o.open[|o.open| - 1].isInStartTag
    ensures Run(o, AttrCalls(attrs)) == Ran(o.(stream := o.stream + AttrsText(attrs)))
    decreases attrs
  {
    if attrs == [] {
      assert o.stream + "" == o.stream;
    } else {
      var c := Attribute(attrs[0].name, attrs[0].value);
      RunCons(o, c, AttrCalls(attrs[1..]));
      AttrsRun(Step(o, c).0, attrs[1..]);
      AddsAttr(o.stream, attrs[0], AttrsText(attrs[1..]));
    }
  }

  // ---- the stages of writing one element ----

  function Opened(o: Out, name: string, attrs: seq<Attr>): Out
  {
    var e := StartTagEnded(o);
    Out(e.stream + "<" + name + AttrsText(attrs), e.open + [Open(name, true)])
  }

  function Added(o: Out, text: string): Out { o.(stream := o.stream + text) }

  lemma OpensTag(o: Out, name: string, attrs: seq<Attr>)
    ensures Run(o, [Begin(name)] + AttrCalls(attrs)) == Ran(Opened(o, name, attrs))
  {
    RunCons(o, Begin(name), AttrCalls(attrs));
    AttrsRun(Step(o, Begin(name)).0, attrs);
  }

  /** After the content, the end of the element. */
  lemma EndsTag(o: Out, name: string, attrs: seq<Attr>, content: seq<Node>)
    ensures var n := Opened(o, name, attrs);
      var filled := if content == [] then n else Added(StartTagEnded(n), AllRendered(content));
      Run(filled, [End]) == Ran(Added(StartTagEnded(o), Rendered(Tag(name, attrs, content))))
  {
    var e, n := StartTagEnded(o), Opened(o, name, attrs);
    assert n.open[|n.open| - 1] == Open(name, true) && n.open[..|n.open| - 1] == e.open;
    if content == [] {
      RunOne(n, End);
      Regroup3(e.stream, "<" + name + AttrsText(attrs), "/>");
      assert e.stream + "<" + name + AttrsText(attrs) == e.stream + ("<" + name + AttrsText(attrs));
    } else {
      var filled := Added(StartTagEnded(n), AllRendered(content));
      assert filled.open[|filled.open| - 1] == Open(name, false) && filled.open[..|filled.open| - 1] == e.open;
      RunOne(filled, End);
      FilledText(e.stream, name, AttrsText(attrs), AllRendered(content));
    }
  }

  lemma Regroup3(a: string, b: string, c: string)
    ensures (a + b) + c == a + (b + c)
  {
  }

  lemma FilledText(stream: string, name: string, attrs: string, content: string)
    ensures stream + "<" + name + attrs + ">" + content + ("</" + name + ">")
            == stream + ("<" + name + attrs + (">" + content + "</" + name + ">"))
  {
  }

  /** Whatever was written before, writing a tree adds its text, and closes the start tag of the
      element around it. */
  lemma {:induction false} WritesNode(o: Out, n: Node)
    requires n.Data? ==> o.open != []
    ensures Run(o, Calls(n)) == Ran(Added(StartTagEnded(o), Rendered(n)))
    decreases n, 0
  {
    match n
    case Data(text) => RunOne(o, Text(text));
    case Tag(name, attrs, content) =>
      var begin := [Begin(name)] + AttrCalls(attrs);
      OpensTag(o, name, attrs);
      WritesContent(Opened(o, name, attrs), content);
      EndsTag(o, name, attrs, content);
      RunJoins(o, begin, AllCalls(content));
      RunJoins(o, begin + AllCalls(content), [End]);
  }

  lemma {:induction false} WritesContent(o: Out, ns: seq<Node>)
    requires o.open != []
    ensures Run(o, AllCalls(ns)) == Ran(if ns == [] then o else Added(StartTagEnded(o), AllRendered(ns)))
    decreases ns, 0
  {
    if ns != [] {
      var e := StartTagEnded(o);
      var o1 := Added(e, Rendered(ns[0]));
      WritesNode(o, ns[0]);
      assert StartTagEnded(o1) == o1;
      WritesContent(o1, ns[1..]);
      RunJoins(o, Calls(ns[0]), AllCalls(ns[1..]));
      Regroup3(e.stream, Rendered(ns[0]), AllRendered(ns[1..]));
      if ns[1..] == [] { assert Rendered(ns[0]) + "" == Rendered(ns[0]); }
    }
  }

  // ---- which calls can be made ----

  /** How many elements are open after these calls. */
  function Depth(calls: seq<Call>): int
  {
    if calls == [] then 0 else
    var last := calls[|calls| - 1];
    Depth(calls[..|calls| - 1]) + if last.Begin? then 1 else if last.End? then -1 else 0
  }

  /** The last call was the start of an element or an attribute of it. */
  predicate JustBegun(calls: seq<Call>)
  {
    calls != [] && (calls[|calls| - 1].Begin? || calls[|calls| - 1].Attribute?)
  }

  /** Every call but `Begin` stands inside an element, and an attribute comes right after the start of
      its element or after another attribute of it: never after a text or an element inside it. */
  ghost predicate InOrder(calls: seq<Call>)
  {
    && (forall k :: 0 <= k < |calls| && !calls[k].Begin? ==> Depth(calls[..k]) > 0)
    && (forall k :: 0 <= k < |calls| && calls[k].Attribute? ==> JustBegun(calls[..k]))
  }

  lemma LastInOrder(calls: seq<Call>, c: Call)
    ensures InOrder(calls + [c]) <==>
      InOrder(calls) && (c.Begin? || Depth(calls) > 0) && (c.Attribute? ==> JustBegun(calls))
  {
    var all := calls + [c];
    assert forall k :: 0 <= k < |calls| ==> all[k] == calls[k] && all[..k] == calls[..k];
    assert all[|calls|] == c && all[..|calls|] == calls;
  }

  /** What is open after calls that were made in order: the innermost element may be in its start tag,
      those around it are not. */
  ghost predicate OpenAfter(o: Out, calls: seq<Call>)
  {
    && |o.open| == Depth(calls)
    && (forall i :: 0 <= i < |o.open| - 1 ==> !o.open[i].isInStartTag)
    && (o.open != [] ==> (o.open[|o.open| - 1].isInStartTag <==> JustBegun(calls)))
  }

  lemma StepInOrder(o: Out, calls: seq<Call>, c: Call)
    requires OpenAfter(o, calls)
    ensures Callable(o, c) && Step(o, c).1 == Done <==>
      (c.Begin? || Depth(calls) > 0) && (c.Attribute? ==> JustBegun(calls))
    ensures Callable(o, c) && Step(o, c).1 == Done ==> OpenAfter(Step(o, c).0, calls + [c])
  {
    assert (calls + [c])[..|calls|] == calls;
  }

  /** Calls succeed if and only if they are in order: an attribute too late, or a call without an
      element, is refused. */
  lemma {:induction false} RunsInOrder(stream: string, calls: seq<Call>)
    ensures var r := Run(Out(stream, []), calls);
      && (r.Ran? <==> InOrder(calls))
      && (r.Ran? ==> OpenAfter(r.out, calls))
    decreases |calls|
  {
    if calls != [] {
      var pre, c := calls[..|calls| - 1], calls[|calls| - 1];
      assert calls == pre + [c];
      RunsInOrder(stream, pre);
      RunJoins(Out(stream, []), pre, [c]);
      LastInOrder(pre, c);
      var r := Run(Out(stream, []), pre);
      if r.Ran? {
        StepInOrder(r.out, pre, c);
        if Callable(r.out, c) && Step(r.out, c).1 == Done { RunOne(r.out, c); }
      }
    }
  }
}
