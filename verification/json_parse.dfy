/** `parse` (include/gcm/json/parser.h): the grammar drives the builder, and what the builder
    holds at the end is the result. */
module JsonParse {
  import opened Grammars
  import opened Engine
  import opened JsonGrammar
  import opened Json
  import opened Builder

  function Slice(s: string, from: nat, to: nat): string
  {
    if from <= to <= |s| then s[from..to] else ""
  }

  /** The action bound to a rule, with the text it is given. */
  function Action(s: string, e: Engine.Event): Builder.Event
  {
    if e.action == NULL_VALUE || e.Reported? then NullValue
    else if e.action == TRUE_VALUE then BoolValue(true)
    else if e.action == FALSE_VALUE then BoolValue(false)
    else if e.action == INT_VALUE then IntValue(Slice(s, e.from, e.to))
    else if e.action == DOUBLE_VALUE then DoubleValue(Slice(s, e.from, e.to))
    else if e.action == STRING_VALUE then StringValue(Slice(s, e.from, e.to))
    else if e.action == ARRAY_BEGIN then ArrayBegin
    else if e.action == ARRAY_ITEM then ArrayItem
    else if e.action == ARRAY_END then ArrayEnd
    else if e.action == OBJ_BEGIN then ObjectBegin
    else if e.action == OBJ_ITEM then ObjectItem(Slice(s, e.from, e.to))
    else ObjectEnd
  }

  function Actions(s: string, trace: seq<Engine.Event>): seq<Builder.Event>
  {
    if trace == [] then [] else [Action(s, trace[0])] + Actions(s, trace[1..])
  }

  lemma {:induction false} ActionsAppend(s: string, xs: seq<Engine.Event>, ys: seq<Engine.Event>)
    ensures Actions(s, xs + ys) == Actions(s, xs) + Actions(s, ys)
  {
    if xs == [] {
      assert xs + ys == ys;
    } else {
      assert (xs + ys)[1..] == xs[1..] + ys;
      ActionsAppend(s, xs[1..], ys);
    }
  }

  /** A value (`Nil` when the text did not match), or an exception thrown by an action. */
  datatype Parsed = Returned(value: Value) | Threw(fault: Fault)

  /** The result of `parse` and where it leaves the caller's position: an exception ends the match at
      the action that throws it, and leaves the position where it is at that moment. */
  function Parse(s: string, p: nat): (r: (Parsed, nat))
    requires p <= |s|
    ensures p <= r.1 <= |s|
    ensures r.0.Returned? && r.0.value != Nil ==> p < r.1
  {
    JsonTerminates(J());
    var o := Eval(J(), DOCUMENT, s, p);
    var es := Actions(s, o.trace);
    match Replay(Start(), es)
    case Thrown(f) => (Threw(f), HeldAt(J(), DOCUMENT, s, p, FaultIndex(Start(), es)))
    case Built(b) => (Returned(if o.ok then b.root else Nil), o.pos)
  }

  lemma ActionsFrom(s: string, trace: seq<Engine.Event>, i: nat)
    requires i < |trace|
    ensures Actions(s, trace[i..]) == [Action(s, trace[i])] + Actions(s, trace[i + 1..])
  {
    assert trace[i..][1..] == trace[i + 1..];
  }

  /** The next action, and those after it. */
  lemma ReplayFirst(b: Build, e: Builder.Event, rest: seq<Builder.Event>)
    requires Reaches(b.root, b.path)
    ensures Apply(b, e).Thrown? ==> Replay(b, [e] + rest) == Apply(b, e) && FaultIndex(b, [e] + rest) == 0
    ensures Apply(b, e).Built? ==>
      var n := Apply(b, e).build;
      && Reaches(n.root, n.path) && Replay(b, [e] + rest) == Replay(n, rest)
      && (Replay(n, rest).Thrown? ==> FaultIndex(b, [e] + rest) == 1 + FaultIndex(n, rest))
  {
    ApplyReaches(b, e);
    assert ([e] + rest)[1..] == rest;
  }

  method ParseText(s: string, begin: nat) returns (r: Parsed, end: nat)
    requires begin <= |s|
    ensures (r, end) == Parse(s, begin)
  {
    JsonTerminates(J());
    var matcher := new Matcher(J(), s);
    var builder := new TreeBuilder();
    var ok;
    ok, end := matcher.Match(DOCUMENT, begin);
    var trace := matcher.trace;
    ghost var es := Actions(s, trace);
    assert trace == Eval(J(), DOCUMENT, s, begin).trace;
    for i := 0 to |trace|
      invariant Reaches(builder.value, builder.current)
      invariant Replay(Start(), es) == Replay(builder.Now(), Actions(s, trace[i..]))
      invariant Replay(Start(), es).Thrown? ==>
        FaultIndex(Start(), es) == i + FaultIndex(builder.Now(), Actions(s, trace[i..]))
    {
      ActionsFrom(s, trace, i);
      ReplayFirst(builder.Now(), Action(s, trace[i]), Actions(s, trace[i + 1..]));
      var status := builder.Receive(Action(s, trace[i]));
      if status.Raised? {
        end := HeldAt(J(), DOCUMENT, s, begin, i);
        return Threw(status.fault), end;
      }
    }
    r := Returned(if ok then builder.value else Nil);
  }
}
