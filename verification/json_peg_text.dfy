/** Which printed values the code and the textbook reading of its grammar read alike. */
module JsonPegText {
  import opened Grammars
  import opened Engine
  import opened EngineLaws
  import opened Peg
  import opened JsonGrammar
  import opened JsonMatching
  import opened Json
  import opened Builder
  import opened JsonParse
  import opened JsonRoundTrip
  import opened JsonTheorems
  import opened JsonReader
  import opened JsonConverse
  import opened JsonPeg

  /** A well-spelled string whose last escape is a bare `\\u`. */
  predicate EndsInStub(x: string)
    requires WellSpelled(x)
  {
    if x == "" then false
    else if x[0] != '\\' then EndsInStub(x[1..])
    else if x[1] in ESCAPED then EndsInStub(x[2..])
    else if FourHex(x, 2) then EndsInStub(x[6..])
    else true
  }

  predicate HasStub(v: Value)
    requires Spelled(v)
  {
    match v
    case String(x) => EndsInStub(x)
    case Array(items) => ItemsHaveStub(items)
    case Object(members) => MembersHaveStub(members)
    case _ => false
  }

  predicate ItemsHaveStub(items: seq<Value>)
    requires SpelledItems(items)
  {
    items != [] && (HasStub(items[0]) || ItemsHaveStub(items[1..]))
  }

  predicate MembersHaveStub(members: seq<Member>)
    requires SpelledMembers(members)
  {
    members != [] && (EndsInStub(members[0].key) || HasStub(members[0].value) || MembersHaveStub(members[1..]))
  }

  /** Between quotes, the complete characters of a well-spelled string end at its closing quote unless
      it ends in a stub. */
  lemma {:induction false} CharsStopAtStub(x: string, s: string, p: nat)
    requires p <= |s| && HasAt(s, p, x + "\"") && WellSpelled(x)
    ensures CharsEnd(s, p) == p + |x| <==> !EndsInStub(x)
    decreases |x|
  {
    var n := Unit(x);
    UnitStep(x, s, p);
    if n > 0 {
      Drop(x, s, p, n);
      CharsStopAtStub(x[n..], s, p + n);
    }
  }

  /** How long the first complete character of a well-spelled string is. */
  function Unit(x: string): (n: nat)
    requires WellSpelled(x)
    ensures n <= |x| && (n > 0 ==> WellSpelled(x[n..]))
  {
    if x == "" then 0 else if x[0] != '\\' then 1 else if x[1] in ESCAPED then 2 else if FourHex(x, 2) then 6 else 0
  }

  lemma UnitStep(x: string, s: string, p: nat)
    requires p <= |s| && HasAt(s, p, x + "\"") && WellSpelled(x)
    ensures var n := Unit(x);
      && (if n > 0 then p + n <= |s| && CharStep(s, p) == Yes(p + n) else !CharStep(s, p).ok)
      && (EndsInStub(x) <==> if n > 0 then EndsInStub(x[n..]) else x != "")
  {
    QuotedStart(x, s, p);
    if |x| > 1 { HexInside(x, s, p); }
  }

  lemma QuotedStrays(x: string, s: string, p: nat, action: ActionId)
    requires p <= |s| && WellSpelled(x) && HasAt(s, p, "\"" + x + "\"")
    ensures p < |s| && QuotedRun(s, p, action).o.ok
    ensures QuotedRun(s, p, action).strays <==> EndsInStub(x)
  {
    QuotedText(x, s, p);
    assert "\"" + x + "\"" == "\"" + (x + "\"");
    SplitAt(s, p, "\"", x + "\"");
    CharsStopAtStub(x, s, p + 1);
  }

  // ---- values ----

  lemma {:induction false} SpelledHasText(v: Value)
    requires Spelled(v)
    ensures HasText(v)
    decreases v
  {
    match v
    case Array(items) => SpelledItemsHaveText(items);
    case Object(members) => SpelledMembersHaveText(members);
    case _ =>
  }

  lemma {:induction false} SpelledItemsHaveText(items: seq<Value>)
    requires SpelledItems(items)
    ensures ItemsHaveText(items)
    decreases items
  {
    if items != [] {
      SpelledHasText(items[0]);
      SpelledItemsHaveText(items[1..]);
    }
  }

  lemma {:induction false} SpelledMembersHaveText(members: seq<Member>)
    requires SpelledMembers(members)
    ensures MembersHaveText(members)
    decreases members
  {
    if members != [] {
      SpelledHasText(members[0].value);
      SpelledMembersHaveText(members[1..]);
    }
  }

  /** A printed value is read without straying if and only if nothing in it ends in a stub. */
  lemma {:induction false} ValueStrays(g: Grammar, v: Value, s: string, p: nat)
    requires Ready(g) && p <= |s| && Spelled(v) && HasAt(s, p, Text(v)) && Follows(v, s, p + |Text(v)|)
    ensures ReadValue(s, p).strays <==> HasStub(v)
    decreases v, 1
  {
    match v
    case String(x) => StringStrays(x, s, p);
    case Array(items) => ArrayStrays(g, items, s, p);
    case Object(members) => ObjectStrays(g, members, s, p);
    case _ => WordStrays(v, s, p);
  }

  lemma WordStrays(v: Value, s: string, p: nat)
    requires p <= |s| && HasAt(s, p, Text(v)) && (v.Nil? || v.Null? || v.Bool? || v.Int?)
    ensures !ReadValue(s, p).strays
  {
    TextLeads(v);
    FirstAt(s, p, Text(v));
    if v.Int? { DecimalLeads(v.i); }
  }

  lemma StringStrays(x: string, s: string, p: nat)
    requires p <= |s| && AllPrint(x) && WellSpelled(x) && HasAt(s, p, Text(String(x)))
    ensures ReadValue(s, p).strays <==> EndsInStub(x)
  {
    EscapedKeepsPrintable(x);
    QuotedStrays(x, s, p, STRING_VALUE);
    assert s[p] == '"' by { FirstAt(s, p, Text(String(x))); }
  }

  lemma {:induction false} ArrayStrays(g: Grammar, items: seq<Value>, s: string, p: nat)
    requires Ready(g) && p <= |s| && SpelledItems(items) && HasAt(s, p, Text(Array(items)))
    ensures ReadValue(s, p).strays <==> ItemsHaveStub(items)
    decreases items, 1
  {
    if items != [] { ItemsTextLeads(items); }
    BracketText('[', ItemsText(items), ']', s, p);
    assert RunEnd(Space, s, p + 1) == p + 1;
    SpelledItemsHaveText(items);
    ItemsAreLaid(items, s, p + 1, p + 1 + |ItemsText(items)|);
    if items == [] { NoItemAt(s, p + 1); } else { ItemsStray(g, items, s, p + 1); }
    SpelledReads(g, Array(items), s, p);
    ArrayStands(Array(items), s, p);
    assert ReadValue(s, p) == ReadArray(s, p);
  }

  lemma ItemsUnfold(s: string, q: nat, w: nat)
    requires q <= w < |s| && s[q] != ']' && (s[w] == ']' || (s[w] == ',' && Next(s, w) == w + 1))
    requires var v := ReadValue(s, q).o; v.ok && v.pos == w
    ensures ReadItems(s, q).strays <==> ReadValue(s, q).strays || (s[w] == ',' && ReadItems(s, w + 1).strays)
  {
    assert RunEnd(Space, s, w) == w;
  }

  /** An item that comes back, and the rest of the list if there is more of it. */
  lemma {:induction false} ItemStrays(g: Grammar, x: Value, s: string, q: nat, w: nat, more: bool)
    requires Ready(g) && q <= |s| && Spelled(x) && ItemLaid(x, s, q, w)
    requires if more then s[w] == ',' && Next(s, w) == w + 1 else s[w] == ']'
    ensures ReadItems(s, q).strays <==> HasStub(x) || (more && ReadItems(s, w + 1).strays)
    decreases x, 2
  {
    SpelledReads(g, x, s, q);
    ItemsUnfold(s, q, w);
    ValueStrays(g, x, s, q);
  }

  lemma {:induction false} ItemsStray(g: Grammar, items: seq<Value>, s: string, q: nat)
    requires Ready(g) && q <= |s| && SpelledItems(items) && items != [] && ItemsLaid(items, s, q)
    ensures ReadItems(s, q).strays <==> ItemsHaveStub(items)
    decreases items, 0
  {
    var rest, w := items[1..], q + |Text(items[0])|;
    ItemStrays(g, items[0], s, q, w, rest != []);
    if rest != [] { ItemsStray(g, rest, s, w + 1); }
  }

  lemma {:induction false} ObjectStrays(g: Grammar, members: seq<Member>, s: string, p: nat)
    requires Ready(g) && p <= |s| && SpelledMembers(members) && HasAt(s, p, Text(Object(members)))
    ensures ReadValue(s, p).strays <==> MembersHaveStub(members)
    decreases members, 1
  {
    if members != [] { MembersTextLeads(members); }
    BracketText('{', MembersText(members), '}', s, p);
    assert RunEnd(Space, s, p + 1) == p + 1;
    SpelledMembersHaveText(members);
    MembersAreLaid(members, MembersText(members), s, p + 1);
    if members == [] { NoMemberAt(s, p + 1); } else { MembersStray(g, members, s, p + 1); }
    assert ReadValue(s, p) == ReadObject(s, p);
  }

  lemma MemberStrayed(s: string, q: nat, e: nat)
    requires q < e && e + 2 < |s| && s[q] == '"' && Scan(s, q + 1) == e && s[e] == '"' && s[e + 1] == ':'
    requires !InClass(Space, s[e + 2])
    ensures var r, v := ReadMember(s, q), ReadValue(s, e + 2);
      r.o.ok == v.o.ok && r.o.pos == v.o.pos && (r.strays <==> QuotedRun(s, q, OBJ_ITEM).strays || v.strays)
  {
    KeyedReads(s, q, e);
    assert RunEnd(Space, s, e + 1) == e + 1 && RunEnd(Space, s, e + 2) == e + 2;
  }

  lemma MembersUnfold(s: string, q: nat, w: nat, h: Reading, more: bool)
    requires q <= |s| && h == ReadMember(s, q) && h.o.ok && h.o.pos == w < |s|
    requires if more then s[w] == ',' && Next(s, w) == w + 1 else s[w] == '}'
    ensures ReadMembers(s, q).strays <==> h.strays || (more && ReadMembers(s, w + 1).strays)
  {
  }

  lemma KeyReads(key: string, s: string, q: nat, e: nat)
    requires q <= |s| && WellSpelled(key) && HasAt(s, q, "\"" + key + "\"") && e == q + 1 + |key|
    ensures e < |s| && s[q] == '"' && Scan(s, q + 1) == e && s[e] == '"'
    ensures QuotedRun(s, q, OBJ_ITEM).strays <==> EndsInStub(key)
  {
    QuotedText(key, s, q);
    QuotedStrays(key, s, q, OBJ_ITEM);
  }

  lemma {:induction false} LaidValue(g: Grammar, v: Value, s: string, b: nat, w: nat)
    requires Ready(g) && b <= w < |s| && Spelled(v) && HasAt(s, b, Text(v)) && w == b + |Text(v)| && NumberEnds(s, w)
    ensures var r := ReadValue(s, b); r.o.ok && r.o.pos == w && (r.strays <==> HasStub(v))
    decreases v, 2
  {
    SpelledReads(g, v, s, b);
    ValueStrays(g, v, s, b);
  }

  lemma {:induction false} MemberComesBack(g: Grammar, m: Member, s: string, q: nat, w: nat)
    requires Ready(g) && q <= |s| && WellSpelled(m.key) && Spelled(m.value) && MemberLaid(m, s, q, w)
    ensures var h := ReadMember(s, q);
      h.o.ok && h.o.pos == w && (h.strays <==> EndsInStub(m.key) || HasStub(m.value))
    decreases m, 3
  {
    var e := q + 1 + |m.key|;
    KeyReads(m.key, s, q, e);
    LaidValue(g, m.value, s, e + 2, w);
    MemberStrayed(s, q, e);
  }

  /** A member that comes back, and the rest of the list if there is more of it. */
  lemma {:induction false} MemberStrays(g: Grammar, m: Member, s: string, q: nat, w: nat, more: bool)
    requires Ready(g) && q <= |s| && WellSpelled(m.key) && Spelled(m.value) && MemberLaid(m, s, q, w)
    requires if more then s[w] == ',' && Next(s, w) == w + 1 else s[w] == '}'
    ensures ReadMembers(s, q).strays <==>
      EndsInStub(m.key) || HasStub(m.value) || (more && ReadMembers(s, w + 1).strays)
    decreases m, 4
  {
    MemberComesBack(g, m, s, q, w);
    MembersUnfold(s, q, w, ReadMember(s, q), more);
  }

  lemma {:induction false} MembersStray(g: Grammar, members: seq<Member>, s: string, q: nat)
    requires Ready(g) && q <= |s| && SpelledMembers(members) && members != [] && MembersLaid(members, s, q)
    ensures ReadMembers(s, q).strays <==> MembersHaveStub(members)
    decreases members, 0
  {
    var m, rest := members[0], members[1..];
    var w := q + 3 + |m.key| + |Text(m.value)|;
    MemberStrays(g, m, s, q, w, rest != []);
    if rest != [] { RestStrays(g, rest, s, w); }
  }

  lemma {:induction false} RestStrays(g: Grammar, rest: seq<Member>, s: string, w: nat)
    requires Ready(g) && w < |s| && SpelledMembers(rest) && rest != [] && MoreLaid(rest, s, w)
    ensures ReadMembers(s, w + 1).strays <==> MembersHaveStub(rest)
    decreases rest, 1
  {
    MembersStray(g, rest, s, w + 1);
  }

  // ---- texts ----

  /** Code and textbook agree on the text of a well-spelled value if and only if no string or key in it
      ends in a bare `\\u`. */
  lemma TextAgrees(g: Grammar, v: Value)
    requires Ready(g) && Spelled(v)
    ensures Agree(g, DOCUMENT, Text(v), 0) <==> !HasStub(v)
  {
    var s := Text(v);
    assert s[0..|s|] == s;
    TextLeads(v);
    assert RunEnd(Space, s, 0) == 0;
    SpelledReads(g, v, s, 0);
    ValueStrays(g, v, s, 0);
    DocumentAgrees(g, s, 0);
  }
}
