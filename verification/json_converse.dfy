/** The other half of the round trip: what parsing calls for when a printed value does not come
    back. */
module JsonConverse {
  import opened Grammars
  import opened Engine
  import opened EngineLaws
  import opened JsonGrammar
  import opened JsonMatching
  import opened Json
  import opened Builder
  import opened JsonParse
  import opened JsonRoundTrip
  import opened JsonTheorems
  import opened JsonReader

  // ---- values with a text ----

  /** No doubles, whose printing is not part of this model, and no null pointer in an array, which
      the printer follows. */
  predicate HasText(v: Value)
  {
    match v
    case Double(_) => false
    case Array(items) => ItemsHaveText(items)
    case Object(members) => MembersHaveText(members)
    case _ => true
  }

  predicate ItemsHaveText(items: seq<Value>)
  {
    items == [] || (items[0] != Nil && HasText(items[0]) && ItemsHaveText(items[1..]))
  }

  predicate MembersHaveText(members: seq<Member>)
  {
    members == [] || (HasText(members[0].value) && MembersHaveText(members[1..]))
  }

  // ---- runs of actions that disagree ----

  /** They have different actions at the same place. */
  ghost predicate Clash(a: seq<Builder.Event>, b: seq<Builder.Event>)
  {
    exists k :: 0 <= k < |a| && k < |b| && a[k] != b[k]
  }

  lemma ClashInside(pre: seq<Builder.Event>, a: seq<Builder.Event>, b: seq<Builder.Event>,
                    c: seq<Builder.Event>, d: seq<Builder.Event>)
    requires Clash(a, b)
    ensures Clash(pre + a + c, pre + b + d)
  {
    var k :| 0 <= k < |a| && k < |b| && a[k] != b[k];
    assert (pre + a + c)[|pre| + k] == a[k] && (pre + b + d)[|pre| + k] == b[k];
  }

  lemma ClashFirst(x: Builder.Event, y: Builder.Event, c: seq<Builder.Event>, d: seq<Builder.Event>)
    requires x != y
    ensures Clash([x] + c, [y] + d)
  {
    assert ([x] + c)[0] != ([y] + d)[0];
  }

  lemma ClashLater(pre: seq<Builder.Event>, a: seq<Builder.Event>, b: seq<Builder.Event>)
    requires Clash(a, b)
    ensures Clash(pre + a, pre + b)
  {
    ClashInside(pre, a, b, [], []);
    assert pre + a + [] == pre + a && pre + b + [] == pre + b;
  }

  // ---- strings ----

  /** The first character that is not printable is printed as something else. */
  lemma {:induction false} EscapedDiffers(x: string) returns (i: nat)
    requires !AllPrint(x)
    ensures i < |x| && i < |Escaped(x, false)| && Escaped(x, false)[i] != x[i]
  {
    if IsPrint(x[0]) {
      assert x == [x[0]] + x[1..];
      i := EscapedDiffers(x[1..]);
      i := i + 1;
    } else {
      i := 0;
    }
  }

  lemma CharAt(s: string, p: nat, t: string, i: nat)
    requires p <= |s| && HasAt(s, p, t) && i < |t|
    ensures s[p + i] == t[i]
  {
    assert s[p..p + |t|][i] == t[i];
  }

  /** The run of characters that starts where a string is printed is that string only if nothing in
      it was escaped, and it ends at its quote. */
  lemma RunDiffers(x: string, y: string, s: string, p: nat)
    requires p <= |s| && HasAt(s, p, y + "\"") && (y == x || y == Escaped(x, false))
    requires if y == x then !WellSpelled(x) else !AllPrint(x)
    ensures s[p..Scan(s, p)] != x
  {
    var e := Scan(s, p);
    if y == x {
      ScanStopsAtQuote(x, s, p);
    } else {
      var i := EscapedDiffers(x);
      CharAt(s, p, y + "\"", i);
      if p + i < e { assert s[p..e][i] != x[i]; }
    }
  }

  // ---- what the reader's calls start with ----

  lemma QuotedFirst(s: string, p: nat) returns (rest: seq<Engine.Event>)
    requires p < |s| && s[p] == '"'
    ensures ReadValue(s, p).o.trace == [Fired(STRING_VALUE, p + 1, Scan(s, p + 1))] + rest
  {
    var x := QuotedRun(s, p, STRING_VALUE).o;
    rest := [];
    if !x.ok {
      var a := ReadArray(s, x.pos).o;
      rest := a.trace;
      if !a.ok { rest := rest + ReadObject(s, a.pos).o.trace; }
      assert x.trace + a.trace + ReadObject(s, a.pos).o.trace == x.trace + (a.trace + ReadObject(s, a.pos).o.trace);
    }
  }

  lemma ClosedFirst(s: string, p: nat, begin: ActionId, inner: Reading, d: char, end: ActionId)
    returns (rest: seq<Engine.Event>)
    requires p < inner.o.pos <= |s|
    ensures Closed(s, p, begin, inner, d, end).o.trace == [Fired(begin, p, p + 1)] + inner.o.trace + rest
  {
    var r := Closed(s, p, begin, inner, d, end).o;
    rest := if r.ok then [Fired(end, r.pos - 1, r.pos)] else [];
  }

  lemma ItemsFirst(s: string, p: nat) returns (rest: seq<Engine.Event>)
    requires p < |s| && s[p] == '['
    ensures ReadValue(s, p).o.trace
            == [Fired(ARRAY_BEGIN, p, p + 1)] + ReadItems(s, RunEnd(Space, s, p + 1)).o.trace + rest
  {
    var items := ReadItems(s, RunEnd(Space, s, p + 1));
    rest := ClosedFirst(s, p, ARRAY_BEGIN, items, ']', ARRAY_END);
    assert ReadArray(s, p) == Closed(s, p, ARRAY_BEGIN, items, ']', ARRAY_END);
    var more := ArrayFirst(s, p);
    rest := rest + more;
  }

  lemma ArrayFirst(s: string, p: nat) returns (more: seq<Engine.Event>)
    requires p < |s| && s[p] == '['
    ensures ReadValue(s, p).o.trace == ReadArray(s, p).o.trace + more
  {
    var a := ReadArray(s, p).o;
    more := if a.ok then [] else ReadObject(s, a.pos).o.trace;
  }

  lemma MembersFirst(s: string, p: nat) returns (rest: seq<Engine.Event>)
    requires p < |s| && s[p] == '{'
    ensures ReadValue(s, p).o.trace
            == [Fired(OBJ_BEGIN, p, p + 1)] + ReadMembers(s, RunEnd(Space, s, p + 1)).o.trace + rest
  {
    var members := ReadMembers(s, RunEnd(Space, s, p + 1));
    rest := ClosedFirst(s, p, OBJ_BEGIN, members, '}', OBJ_END);
    assert ReadValue(s, p) == ReadObject(s, p);
  }

  // ---- a value that is not well spelled is misread ----

  lemma SpelledReads(g: Grammar, v: Value, s: string, p: nat)
    requires Ready(g) && p <= |s| && Spelled(v) && HasAt(s, p, Text(v)) && Follows(v, s, p + |Text(v)|)
    ensures var o := ReadValue(s, p).o; o.ok && o.pos == p + |Text(v)| && Actions(s, o.trace) == Events(v)
  {
    ReadsValue(g, v, s, p);
    ValueIs(g, s, p);
  }

  lemma StringClashes(x: string, s: string, p: nat)
    requires p <= |s| && HasAt(s, p, Text(String(x))) && !(AllPrint(x) && WellSpelled(x))
    ensures Clash(Actions(s, ReadValue(s, p).o.trace), [StringValue(x)])
  {
    var y := Escaped(x, false);
    assert "\"" + y + "\"" == "\"" + (y + "\"");
    SplitAt(s, p, "\"", y + "\"");
    FirstAt(s, p, "\"");
    EscapedKeepsPrintable(x);
    if y == x && !AllPrint(x) { var i := EscapedDiffers(x); }
    RunDiffers(x, y, s, p + 1);
    StringIsMisread(x, s, p, s[p + 1..Scan(s, p + 1)]);
  }

  lemma StringIsMisread(x: string, s: string, p: nat, z: string)
    requires p < |s| && s[p] == '"' && z == s[p + 1..Scan(s, p + 1)] && z != x
    ensures Clash(Actions(s, ReadValue(s, p).o.trace), [StringValue(x)])
  {
    var call := Fired(STRING_VALUE, p + 1, Scan(s, p + 1));
    var rest := QuotedFirst(s, p);
    assert Action(s, call) == StringValue(z);
    FirstClashes(s, call, rest, StringValue(x), []);
    assert [StringValue(x)] + [] == [StringValue(x)];
  }

  /** After a printed comma the next element follows without white space. */
  lemma AfterComma(more: string, s: string, w: nat)
    requires w <= |s| && HasAt(s, w, "," + more) && more != "" && !InClass(Space, more[0])
    ensures w < |s| && s[w] == ',' && Next(s, w) == w + 1 && HasAt(s, w + 1, more)
  {
    SplitAt(s, w, ",", more);
    FirstAt(s, w, ",");
    FirstAt(s, w + 1, more);
    assert RunEnd(Space, s, w + 1) == w + 1;
  }

  lemma {:induction false} ValueClashes(g: Grammar, v: Value, s: string, p: nat)
    requires Ready(g) && p <= |s| && HasText(v) && !Spelled(v) && HasAt(s, p, Text(v))
    ensures Clash(Actions(s, ReadValue(s, p).o.trace), Events(v))
    decreases v, 1
  {
    match v
    case String(x) => StringClashes(x, s, p);
    case Array(items) => ArrayClashes(g, items, s, p);
    case Object(members) => ObjectClashes(g, members, s, p);
  }

  /** A printed value comes back, or its actions clash with those it should give rise to. */
  ghost predicate Fate(v: Value, s: string, b: nat, w: nat)
    requires b <= |s|
  {
    var o := ReadValue(s, b).o;
    if Spelled(v) then o.ok && o.pos == w && Actions(s, o.trace) == Events(v) else Clash(Actions(s, o.trace), Events(v))
  }

  lemma {:induction false} MeetsFate(g: Grammar, v: Value, s: string, b: nat, w: nat)
    requires Ready(g) && b <= w <= |s| && HasText(v) && HasAt(s, b, Text(v)) && w == b + |Text(v)| && NumberEnds(s, w)
    ensures Fate(v, s, b, w)
    decreases v, 2
  {
    if Spelled(v) { SpelledReads(g, v, s, b); } else { ValueClashes(g, v, s, b); }
  }

  lemma {:induction false} ArrayClashes(g: Grammar, items: seq<Value>, s: string, p: nat)
    requires Ready(g) && p <= |s| && ItemsHaveText(items) && !SpelledItems(items) && HasAt(s, p, Text(Array(items)))
    ensures Clash(Actions(s, ReadValue(s, p).o.trace), Events(Array(items)))
    decreases items, 2
  {
    ItemsTextLeads(items);
    BracketText('[', ItemsText(items), ']', s, p);
    assert RunEnd(Space, s, p + 1) == p + 1;
    var inner := ReadItems(s, p + 1).o.trace;
    ItemsAreLaid(items, s, p + 1, p + 1 + |ItemsText(items)|);
    ItemsClash(g, items, s, p + 1, inner);
    var rest := ItemsFirst(s, p);
    ListActions(s, Fired(ARRAY_BEGIN, p, p + 1), inner, rest);
    ClashInside([ArrayBegin], Actions(s, inner), ItemEvents(items), Actions(s, rest), [ArrayEnd]);
  }

  /** The calls for a list of items are those for the first, and some more. */
  lemma ItemsTail(s: string, q: nat) returns (tail: seq<Engine.Event>)
    requires q < |s| && s[q] != ']'
    ensures var v := ReadValue(s, q).o;
      && ReadItems(s, q).o.trace == [Fired(ARRAY_ITEM, q, q)] + v.trace + tail
      && (v.ok && v.pos < |s| && s[v.pos] == ',' ==> tail == ReadItems(s, Next(s, v.pos)).o.trace)
  {
    var v := ReadValue(s, q).o;
    var h := ReadItem(s, q).o;
    assert h.trace == [Fired(ARRAY_ITEM, q, q)] + v.trace;
    tail := if GoesOn(s, h) then ReadItems(s, Next(s, h.pos)).o.trace else [];
    if v.ok && v.pos < |s| && s[v.pos] == ',' { assert RunEnd(Space, s, v.pos) == v.pos; }
  }

  /** An item printed at `q`, up to `w`. */
  predicate ItemLaid(x: Value, s: string, q: nat, w: nat)
    requires q <= |s|
  {
    x != Nil && HasText(x) && w == q + |Text(x)| < |s| && NumberEnds(s, w) && HasAt(s, q, Text(x)) && s[q] != ']'
  }

  /** Items printed from `q` on, with commas between them and a bracket after them. */
  predicate ItemsLaid(items: seq<Value>, s: string, q: nat)
    requires q <= |s|
    decreases items, 1
  {
    items != [] ==>
      var w := q + |Text(items[0])|;
      ItemLaid(items[0], s, q, w) && MoreItemsLaid(items[1..], s, w)
  }

  /** What comes after an item. */
  predicate MoreItemsLaid(rest: seq<Value>, s: string, w: nat)
    requires w < |s|
    decreases rest, 2
  {
    if rest == [] then s[w] == ']' else s[w] == ',' && Next(s, w) == w + 1 && ItemsLaid(rest, s, w + 1)
  }

  lemma {:induction false} ItemsAreLaid(items: seq<Value>, s: string, q: nat, n: nat)
    requires q <= |s| && ItemsHaveText(items) && HasAt(s, q, ItemsText(items))
    requires q + |ItemsText(items)| == n < |s| && s[n] == ']'
    ensures ItemsLaid(items, s, q)
    decreases items, 1
  {
    if items != [] {
      var x := items[0];
      var w := q + |Text(x)|;
      SplitAt(s, q, Text(x), MoreItemsText(items[1..]));
      assert HasText(x);
      TextLeads(x);
      FirstAt(s, q, Text(x));
      AfterValue(MoreItemsText(items[1..]), ']', s, w);
      assert ItemLaid(x, s, q, w);
      MoreItemsAreLaid(items[1..], s, w, n);
    }
  }

  lemma {:induction false} MoreItemsAreLaid(rest: seq<Value>, s: string, w: nat, n: nat)
    requires w < |s| && ItemsHaveText(rest) && HasAt(s, w, MoreItemsText(rest))
    requires w + |MoreItemsText(rest)| == n < |s| && s[n] == ']'
    ensures MoreItemsLaid(rest, s, w)
    decreases rest, 2
  {
    if rest != [] {
      ItemsTextLeads(rest);
      assert MoreItemsText(rest) == "," + ItemsText(rest);
      AfterComma(ItemsText(rest), s, w);
      ItemsAreLaid(rest, s, w + 1, n);
    }
  }

  /** The actions for a list whose first item goes wrong, or comes back while the rest does not. */
  lemma ItemsDisagree(items: seq<Value>, s: string, q: nat, w: nat, tail: seq<Engine.Event>,
                                         calls: seq<Engine.Event>)
    requires q <= |s| && items != [] && Fate(items[0], s, q, w)
    requires Spelled(items[0]) ==> Clash(Actions(s, tail), ItemEvents(items[1..]))
    requires calls == [Fired(ARRAY_ITEM, q, q)] + ReadValue(s, q).o.trace + tail
    ensures Clash(Actions(s, calls), ItemEvents(items))
  {
    var inner := ReadValue(s, q).o.trace;
    ListActions(s, Fired(ARRAY_ITEM, q, q), inner, tail);
    Disagree(ArrayItem, Actions(s, inner), Events(items[0]), Actions(s, tail), ItemEvents(items[1..]));
  }

  lemma Disagree(first: Builder.Event, a: seq<Builder.Event>, b: seq<Builder.Event>,
                 c: seq<Builder.Event>, d: seq<Builder.Event>)
    requires Clash(a, b) || (a == b && Clash(c, d))
    ensures Clash([first] + a + c, [first] + b + d)
  {
    if Clash(a, b) { ClashInside([first], a, b, c, d); } else { ClashLater([first] + a, c, d); }
  }

  /** An item and the calls for the rest of the list. */
  lemma {:induction false} ItemMeetsFate(g: Grammar, x: Value, s: string, q: nat, w: nat)
    returns (tail: seq<Engine.Event>)
    requires Ready(g) && q <= |s| && ItemLaid(x, s, q, w)
    ensures w < |s| && Fate(x, s, q, w)
    ensures ReadItems(s, q).o.trace == [Fired(ARRAY_ITEM, q, q)] + ReadValue(s, q).o.trace + tail
    ensures Spelled(x) && s[w] == ',' ==> tail == ReadItems(s, Next(s, w)).o.trace
    decreases x, 3
  {
    TextLeads(x);
    tail := ItemsTail(s, q);
    MeetsFate(g, x, s, q, w);
  }

  lemma {:induction false} ItemsClash(g: Grammar, items: seq<Value>, s: string, q: nat, calls: seq<Engine.Event>)
    requires Ready(g) && q <= |s| && ItemsLaid(items, s, q) && !SpelledItems(items)
    requires calls == ReadItems(s, q).o.trace
    ensures Clash(Actions(s, calls), ItemEvents(items))
    decreases items, 1
  {
    var w := q + |Text(items[0])|;
    var tail := ItemMeetsFate(g, items[0], s, q, w);
    if Spelled(items[0]) { LaterItemsClash(g, items[1..], s, w, tail); }
    ItemsDisagree(items, s, q, w, tail, calls);
  }

  /** The items after one that comes back. */
  lemma {:induction false} LaterItemsClash(g: Grammar, rest: seq<Value>, s: string, w: nat, calls: seq<Engine.Event>)
    requires Ready(g) && w < |s| && MoreItemsLaid(rest, s, w) && !SpelledItems(rest)
    requires s[w] == ',' ==> calls == ReadItems(s, Next(s, w)).o.trace
    ensures Clash(Actions(s, calls), ItemEvents(rest))
    decreases rest, 2
  {
    ItemsClash(g, rest, s, w + 1, calls);
  }

  lemma {:induction false} ObjectClashes(g: Grammar, members: seq<Member>, s: string, p: nat)
    requires Ready(g) && p <= |s| && MembersHaveText(members) && !SpelledMembers(members)
    requires HasAt(s, p, Text(Object(members)))
    ensures Clash(Actions(s, ReadValue(s, p).o.trace), Events(Object(members)))
    decreases members, 3
  {
    MembersTextLeads(members);
    BracketText('{', MembersText(members), '}', s, p);
    assert RunEnd(Space, s, p + 1) == p + 1;
    var inner := ReadMembers(s, p + 1).o.trace;
    MembersAreLaid(members, MembersText(members), s, p + 1);
    MembersClash(g, members, s, p + 1, inner);
    var rest := MembersFirst(s, p);
    ListActions(s, Fired(OBJ_BEGIN, p, p + 1), inner, rest);
    ClashInside([ObjectBegin], Actions(s, inner), MemberEvents(members), Actions(s, rest), [ObjectEnd]);
  }

  /** The calls for a list of members are those for the first, and some more. */
  lemma MembersTail(s: string, q: nat) returns (tail: seq<Engine.Event>)
    requires q <= |s|
    ensures var h := ReadMember(s, q).o;
      && ReadMembers(s, q).o.trace == h.trace + tail
      && (GoesOn(s, h) ==> tail == ReadMembers(s, Next(s, h.pos)).o.trace)
  {
    var h := ReadMember(s, q).o;
    tail := if GoesOn(s, h) then ReadMembers(s, Next(s, h.pos)).o.trace else [];
  }

  /** What is called first where a member starts with a quote. */
  lemma MemberFirst(s: string, q: nat) returns (rest: seq<Engine.Event>)
    requires q < |s| && s[q] == '"'
    ensures ReadMember(s, q).o.trace == [Fired(OBJ_ITEM, q + 1, Scan(s, q + 1))] + rest
  {
    var key := QuotedRun(s, q, OBJ_ITEM).o;
    var c := RunEnd(Space, s, key.pos);
    rest := if key.ok && c < |s| && s[c] == ':' then ReadValue(s, RunEnd(Space, s, c + 1)).o.trace else [];
  }

  lemma KeyFirst(s: string, q: nat) returns (more: seq<Engine.Event>)
    requires q < |s| && s[q] == '"'
    ensures ReadMembers(s, q).o.trace == [Fired(OBJ_ITEM, q + 1, Scan(s, q + 1))] + more
  {
    var rest := MemberFirst(s, q);
    var tail := MembersTail(s, q);
    more := StartsLonger(Fired(OBJ_ITEM, q + 1, Scan(s, q + 1)), ReadMember(s, q).o.trace, rest, tail);
  }

  lemma StartsLonger(e: Engine.Event, t: seq<Engine.Event>, rest: seq<Engine.Event>, tail: seq<Engine.Event>)
    returns (more: seq<Engine.Event>)
    requires t == [e] + rest
    ensures t + tail == [e] + more
  {
    more := rest + tail;
  }

  /** A key that is not well spelled is misread. */
  lemma KeyClashes(key: string, s: string, q: nat, es: seq<Builder.Event>)
    requires q <= |s| && HasAt(s, q, "\"" + key + "\"") && !WellSpelled(key)
    ensures Clash(Actions(s, ReadMembers(s, q).o.trace), [ObjectItem(key)] + es)
  {
    assert "\"" + key + "\"" == "\"" + (key + "\"");
    SplitAt(s, q, "\"", key + "\"");
    FirstAt(s, q, "\"");
    RunDiffers(key, key, s, q + 1);
    var more := KeyFirst(s, q);
    FirstClashes(s, Fired(OBJ_ITEM, q + 1, Scan(s, q + 1)), more, ObjectItem(key), es);
  }

  lemma FirstClashes(s: string, call: Engine.Event, more: seq<Engine.Event>, first: Builder.Event,
                     es: seq<Builder.Event>)
    requires Action(s, call) != first
    ensures Clash(Actions(s, [call] + more), [first] + es)
  {
    ActionsAppend(s, [call], more);
    OneAction(s, call);
    ClashFirst(Action(s, call), first, Actions(s, more), es);
  }

  /** A member whose key ends at `e` and is followed by a colon and no white space. */
  lemma KeyedReads(s: string, q: nat, e: nat)
    requires q < e && e + 2 < |s| && s[q] == '"' && Scan(s, q + 1) == e && s[e] == '"' && s[e + 1] == ':'
    requires !InClass(Space, s[e + 2])
    ensures var v := ReadValue(s, e + 2).o;
      ReadMember(s, q).o == Outcome(v.ok, v.pos, [Fired(OBJ_ITEM, q + 1, e)] + v.trace)
  {
    assert RunEnd(Space, s, e + 1) == e + 1 && RunEnd(Space, s, e + 2) == e + 2;
    var key := QuotedRun(s, q, OBJ_ITEM);
    assert key.o == Outcome(true, e + 1, [Fired(OBJ_ITEM, q + 1, e)]);
    assert ReadMember(s, q).o == Then(key.o, ReadValue(s, e + 2).o);
  }

  lemma KeyedTail(s: string, q: nat, e: nat) returns (tail: seq<Engine.Event>)
    requires q < e && e + 2 < |s| && s[q] == '"' && Scan(s, q + 1) == e && s[e] == '"' && s[e + 1] == ':'
    requires !InClass(Space, s[e + 2])
    ensures var v := ReadValue(s, e + 2).o;
      && ReadMembers(s, q).o.trace == [Fired(OBJ_ITEM, q + 1, e)] + v.trace + tail
      && (GoesOn(s, v) ==> tail == ReadMembers(s, Next(s, v.pos)).o.trace)
  {
    KeyedReads(s, q, e);
    tail := MembersTail(s, q);
  }

  /** A member printed at `q`, up to the end of its value at `w`. */
  predicate MemberLaid(m: Member, s: string, q: nat, w: nat)
    requires q <= |s|
  {
    var b := q + 3 + |m.key|;
    && HasText(m.value) && w == b + |Text(m.value)| < |s| && NumberEnds(s, w)
    && HasAt(s, q, "\"" + m.key + "\"") && s[q] == '"' && s[b - 1] == ':'
    && HasAt(s, b, Text(m.value)) && !InClass(Space, s[b])
  }

  /** Members printed from `q` on, with commas between them and a bracket after them. */
  predicate MembersLaid(members: seq<Member>, s: string, q: nat)
    requires q <= |s|
    decreases members, 1
  {
    members != [] ==>
      var w := q + 3 + |members[0].key| + |Text(members[0].value)|;
      MemberLaid(members[0], s, q, w) && MoreLaid(members[1..], s, w)
  }

  /** What comes after a member. */
  predicate MoreLaid(rest: seq<Member>, s: string, w: nat)
    requires w < |s|
    decreases rest, 2
  {
    if rest == [] then s[w] == '}' else s[w] == ',' && Next(s, w) == w + 1 && MembersLaid(rest, s, w + 1)
  }

  lemma FirstIsLaid(m: Member, t: string, more: string, s: string, q: nat) returns (w: nat)
    requires q <= |s| && HasText(m.value) && t == Text(m.value) && t != "" && !InClass(Space, t[0])
    requires HasAt(s, q, "\"" + m.key + "\":" + t + more) && (more == "" || more[0] == ',')
    requires var n := q + 3 + |m.key| + |t| + |more|; n < |s| && s[n] == '}'
    ensures w == q + 3 + |m.key| + |t| && MemberLaid(m, s, q, w) && HasAt(s, w, more) && (more == "" ==> s[w] == '}')
  {
    var e;
    e, w := PiecesAt(m.key, t, more, s, q);
    AfterValue(more, '}', s, w);
  }

  lemma {:induction false} MembersAreLaid(members: seq<Member>, text: string, s: string, q: nat)
    requires q <= |s| && MembersHaveText(members) && text == MembersText(members) && HasAt(s, q, text)
    requires q + |text| < |s| && s[q + |text|] == '}'
    ensures MembersLaid(members, s, q)
    decreases members, 1
  {
    if members != [] {
      assert HasText(members[0].value);
      var key, t, more := PiecesOf(members);
      var w := FirstIsLaid(members[0], t, more, s, q);
      MoreAreLaid(members[1..], more, s, w);
    }
  }

  lemma {:induction false} MoreAreLaid(rest: seq<Member>, more: string, s: string, w: nat)
    requires w < |s| && MembersHaveText(rest) && more == MoreMembersText(rest) && HasAt(s, w, more)
    requires w + |more| < |s| && s[w + |more|] == '}'
    ensures MoreLaid(rest, s, w)
    decreases rest, 2
  {
    if rest != [] {
      var body := RestOf(rest);
      AfterComma(body, s, w);
      MembersAreLaid(rest, body, s, w + 1);
    }
  }

  lemma RestOf(rest: seq<Member>) returns (body: string)
    requires rest != []
    ensures body == MembersText(rest) && MoreMembersText(rest) == "," + body && body != "" && !InClass(Space, body[0])
  {
    body := MembersText(rest);
    MembersTextLeads(rest);
  }

  lemma KeyIsMisread(key: string, s: string, q: nat, a: seq<Builder.Event>, b: seq<Builder.Event>)
    requires q <= |s| && HasAt(s, q, "\"" + key + "\"") && !WellSpelled(key)
    ensures Clash(Actions(s, ReadMembers(s, q).o.trace), [ObjectItem(key)] + a + b)
  {
    KeyClashes(key, s, q, a + b);
    assert [ObjectItem(key)] + (a + b) == [ObjectItem(key)] + a + b;
  }

  lemma KeyAt(key: string, s: string, q: nat, e: nat)
    requires q <= |s| && WellSpelled(key) && HasAt(s, q, "\"" + key + "\"") && e == q + 1 + |key|
    ensures e < |s| && s[q] == '"' && s[e] == '"' && Scan(s, q + 1) == e
    ensures Action(s, Fired(OBJ_ITEM, q + 1, e)) == ObjectItem(key)
  {
    QuotedText(key, s, q);
  }

  /** A member with a good key: the call for the key, its value from `b` to `w`, and the calls for
      the rest of the list. */
  lemma {:induction false} MemberMeetsFate(g: Grammar, m: Member, s: string, q: nat, w: nat)
    returns (key: Engine.Event, b: nat, tail: seq<Engine.Event>)
    requires Ready(g) && q <= |s| && MemberLaid(m, s, q, w) && WellSpelled(m.key)
    ensures b <= w < |s| && Fate(m.value, s, b, w) && Action(s, key) == ObjectItem(m.key)
    ensures ReadMembers(s, q).o.trace == [key] + ReadValue(s, b).o.trace + tail
    ensures Spelled(m.value) && s[w] == ',' ==> tail == ReadMembers(s, Next(s, w)).o.trace
    decreases m, 3
  {
    var e := q + 1 + |m.key|;
    key, b := Fired(OBJ_ITEM, q + 1, e), e + 2;
    KeyAt(m.key, s, q, e);
    tail := KeyedTail(s, q, e);
    MeetsFate(g, m.value, s, b, w);
  }

  lemma {:induction false} MembersClash(g: Grammar, members: seq<Member>, s: string, q: nat, calls: seq<Engine.Event>)
    requires Ready(g) && q <= |s| && MembersLaid(members, s, q) && !SpelledMembers(members)
    requires calls == ReadMembers(s, q).o.trace
    ensures Clash(Actions(s, calls), MemberEvents(members))
    decreases members, 2
  {
    var m, rest := members[0], members[1..];
    EventsOfFirst(members);
    if !WellSpelled(m.key) {
      KeyIsMisread(m.key, s, q, Events(m.value), MemberEvents(rest));
    } else {
      var w := q + 3 + |m.key| + |Text(m.value)|;
      var key, b, tail := MemberMeetsFate(g, m, s, q, w);
      if Spelled(m.value) { LaterClash(g, rest, s, w, tail); }
      GoodKeyClash(m, rest, s, key, b, w, tail, calls);
    }
  }

  /** The members after one that comes back. */
  lemma {:induction false} LaterClash(g: Grammar, rest: seq<Member>, s: string, w: nat, calls: seq<Engine.Event>)
    requires Ready(g) && w < |s| && MoreLaid(rest, s, w) && !SpelledMembers(rest)
    requires s[w] == ',' ==> calls == ReadMembers(s, Next(s, w)).o.trace
    ensures Clash(Actions(s, calls), MemberEvents(rest))
    decreases rest, 3
  {
    MembersClash(g, rest, s, w + 1, calls);
  }

  /** A member with a good key whose value does not come back, or that is followed by one that does not. */
  lemma GoodKeyClash(m: Member, rest: seq<Member>, s: string, key: Engine.Event, b: nat, w: nat,
                     tail: seq<Engine.Event>, calls: seq<Engine.Event>)
    requires b <= |s| && Fate(m.value, s, b, w) && Action(s, key) == ObjectItem(m.key)
    requires Spelled(m.value) ==> Clash(Actions(s, tail), MemberEvents(rest))
    requires calls == [key] + ReadValue(s, b).o.trace + tail
    ensures Clash(Actions(s, calls), [ObjectItem(m.key)] + Events(m.value) + MemberEvents(rest))
  {
    var inner := ReadValue(s, b).o.trace;
    ListActions(s, key, inner, tail);
    Disagree(Action(s, key), Actions(s, inner), Events(m.value), Actions(s, tail), MemberEvents(rest));
  }

  /** Wherever a value is printed, the value rule calls for exactly the actions of that value if and
      only if its strings and keys are well spelled. */
  lemma EventsComeBack(g: Grammar, v: Value, s: string, p: nat)
    requires Ready(g) && p <= |s| && HasText(v) && HasAt(s, p, Text(v)) && Follows(v, s, p + |Text(v)|)
    ensures Actions(s, Eval(g, VALUE, s, p).trace) == Events(v) <==> Spelled(v)
  {
    ValueIs(g, s, p);
    if Spelled(v) { SpelledReads(g, v, s, p); } else { ValueClashes(g, v, s, p); }
  }

  /** When an array fails and an object after it does not, the last call is that for an object. */
  lemma LastCall(s: string, p: nat)
    requires p < |s| && s[p] == '[' && ReadValue(s, p).o.ok && !ReadArray(s, p).o.ok
    ensures var t := ReadValue(s, p).o.trace; t != [] && Action(s, t[|t| - 1]) == ObjectEnd
  {
  }

  lemma ArrayStands(v: Value, s: string, p: nat)
    requires v.Array? && p < |s| && s[p] == '[' && ReadValue(s, p).o.ok
    requires Actions(s, ReadValue(s, p).o.trace) == Events(v)
    ensures ReadArray(s, p).o.ok
  {
    var t := ReadValue(s, p).o.trace;
    assert t != [] && Action(s, t[|t| - 1]) == ArrayEnd by {
      ActionsLength(s, t);
      ActionsAppend(s, t[..|t| - 1], [t[|t| - 1]]);
      assert t == t[..|t| - 1] + [t[|t| - 1]];
      OneAction(s, t[|t| - 1]);
      assert Events(v)[|Events(v)| - 1] == ArrayEnd;
    }
    if !ReadArray(s, p).o.ok { LastCall(s, p); }
  }
}
