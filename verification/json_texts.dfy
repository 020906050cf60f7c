/** What parsing makes of texts that are written out here, character by character: layouts, numbers and
    strings. */
module JsonTexts {
  import opened Grammars
  import opened Engine
  import opened EngineLaws
  import opened JsonGrammar
  import opened JsonMatching
  import opened Json
  import opened Builder
  import opened JsonParse
  import opened JsonRoundTrip
  import opened JsonTheorems
  import opened JsonReader
  import opened JsonLayout

  // ---- layouts ----

  /** A value is read from any layout of it, with white space around it, to the end of the text. */
  lemma LayoutParses(gap: string, l: Layout, gap2: string)
    requires IsGap(gap) && IsGap(gap2) && Neat(l) && NumbersFit(ValueOf(l))
    ensures var s := gap + LaidOut(l) + gap2; Parse(s, 0) == (Returned(Stored(ValueOf(l))), |s|)
  {
    var text := LaidOut(l);
    var s := gap + text + gap2;
    var g := ParseIs(s, 0);
    LayoutLeads(l);
    var p, r := Framed(gap, text, gap2);
    GapEndsNumber(s, r, gap2);
    LayoutReads(g, l, s, p);
    ValueIs(g, s, p);
    ReplayAtRoot(ValueOf(l));
    ValueGives(g, s, 0, r, Events(ValueOf(l)), Stored(ValueOf(l)));
  }

  /** Where a text between two gaps starts and ends. */
  lemma Framed(gap: string, text: string, gap2: string) returns (p: nat, r: nat)
    requires IsGap(gap) && IsGap(gap2) && text != "" && Leads(text[0])
    ensures var s := gap + text + gap2;
      && p == |gap| && r == p + |text| && HasAt(s, p, text) && HasAt(s, r, gap2)
      && RunEnd(Space, s, 0) == p && RunEnd(Space, s, r) == |s|
  {
    var s := gap + text + gap2;
    assert s[0..|s|] == s && s == gap + (text + gap2);
    Solid(text[0]);
    GapThere(s, 0, gap, text + gap2);
    p, r := |gap|, |gap| + |text|;
    SplitAt(s, p, text, gap2);
    GapRun(s, r, gap2);
  }

  lemma GapEndsNumber(s: string, r: nat, gap: string)
    requires r <= |s| && HasAt(s, r, gap) && r + |gap| == |s| && IsGap(gap)
    ensures NumberEnds(s, r)
  {
    if gap != "" {
      FirstAt(s, r, gap);
      assert gap[0] in gap;
    }
  }

  /** No value starts with any other character, whatever comes after it: nothing is called for, and the
      position is left after the white space. */
  lemma NothingStarts(gap: string, ch: char, rest: string)
    requires IsGap(gap) && !IsWhite(ch) && ch !in "ntf\"[{+-0123456789"
    ensures Parse(gap + [ch] + rest, 0) == (Returned(Nil), |gap|)
  {
    var s, more := gap + [ch] + rest, [ch] + rest;
    assert s == gap + more && s[0..|s|] == s;
    GapThere(s, 0, gap, more);
    var g := ParseIs(s, 0);
    DocumentRuns(g, s, 0);
    ValueIs(g, s, |gap|);
    NoStart(ch);
    NotRead(s, |gap|);
  }

  lemma NoStart(ch: char)
    requires ch !in "ntf\"[{+-0123456789"
    ensures ch != 'n' && ch != 't' && ch != 'f' && ch != '"' && ch != '[' && ch != '{' && ch != '+' && ch != '-'
    ensures !InClass(Digit, ch)
  {
    var all := "ntf\"[{+-0123456789";
    assert 'n' == all[0] && 't' == all[1] && 'f' == all[2] && '"' == all[3] && '[' == all[4] && '{' == all[5];
    assert '+' == all[6] && '-' == all[7];
    if InClass(Digit, ch) { DigitStarts(ch); }
  }

  lemma DigitStarts(ch: char)
    requires InClass(Digit, ch)
    ensures ch in "ntf\"[{+-0123456789"
  {
    assert "ntf\"[{+-0123456789"[8 + ch as int - '0' as int] == ch;
  }

  lemma NotRead(s: string, p: nat)
    requires p < |s| && !InClass(Digit, s[p]) && s[p] !in ['n', 't', 'f', '"', '[', '{', '+', '-']
    ensures ReadValue(s, p).o == No(p)
  {
    assert SignEnd(s, p) == p && RunEnd(Digit, s, p) == p;
  }

  /** In an object, white space before a comma is not allowed: after members of any layout it ends the
      match, and there is no value. */
  lemma NoSpaceBeforeComma(lead: string, entries: seq<Entry>, gap: string, rest: string)
    requires entries != [] && NeatEntries(entries) && IsGap(lead) && IsGap(gap) && gap != ""
    requires NumbersFit(Object(EntryMembers(entries)))
    ensures var start := "{" + lead + EntriesText(entries, false) + gap;
      Parse(start + "," + rest, 0) == (Returned(Nil), |start|)
  {
    var text := EntriesText(entries, false);
    var start := "{" + lead + text + gap;
    var s := start + "," + rest;
    var q, m := SpaceThere(lead, text, gap, rest);
    QuoteThere(entries, false, text, s, q);
    EntriesAreLaid(entries, false, text, s, q, m);
    var g := ParseIs(s, 0);
    EntriesRead(g, entries, false, s, q, m);
    var es := [ObjectBegin] + MemberEvents(EntryMembers(entries));
    ObjectBreaksOff(s, q, m, |start|, MemberEvents(EntryMembers(entries)));
    DocumentRuns(g, s, 0);
    ValueIs(g, s, 0);
    HalfObjectReplays(EntryMembers(entries));
  }

  lemma SpaceThere(lead: string, text: string, gap: string, rest: string) returns (q: nat, m: nat)
    requires IsGap(lead) && IsGap(gap) && gap != "" && text != "" && text[0] == '"'
    ensures var s := ("{" + lead + text + gap) + "," + rest;
      && q == 1 + |lead| && m == q + |text| && m < |s| && s[0] == '{' && HasAt(s, q, text) && Past(s, m)
      && RunEnd(Space, s, 0) == 0 && RunEnd(Space, s, 1) == q
      && RunEnd(Space, s, m) == m + |gap| < |s| && s[m + |gap|] == ','
  {
    var s := ("{" + lead + text + gap) + "," + rest;
    var more := gap + ([','] + rest);
    BreaksUp(lead, text, gap, rest);
    assert s[0..|s|] == s;
    q := 1 + |lead|;
    m := q + |text|;
    Solid('"');
    Solid(',');
    var q2 := OpenThere(s, 0, '{', lead, text + more);
    SplitAt(s, q, text, more);
    GapThere(s, m, gap, [','] + rest);
    FirstAt(s, m, more);
    assert gap[0] in gap;
  }

  lemma BreaksUp(lead: string, text: string, gap: string, rest: string)
    ensures ("{" + lead + text + gap) + "," + rest == ['{'] + (lead + (text + (gap + ([','] + rest))))
  {
  }

  lemma ObjectBreaksOff(s: string, q: nat, m: nat, w: nat, es: seq<Builder.Event>)
    requires s != "" && s[0] == '{' && RunEnd(Space, s, 1) == q <= |s|
    requires MembersRead(s, ReadMembers(s, q).o, m, false, es)
    requires RunEnd(Space, s, m) == w < |s| && s[w] == ','
    ensures var o := ReadValue(s, 0).o; !o.ok && o.pos == w && Actions(s, o.trace) == [ObjectBegin] + es
  {
    var members := ReadMembers(s, q);
    assert ReadObject(s, 0) == Closed(s, 0, OBJ_BEGIN, members, '}', OBJ_END);
    CallBefore(s, Fired(OBJ_BEGIN, 0, 1), members.o.trace, ReadObject(s, 0).o.trace);
  }

  /** The members that were read make no fault, and the object is left open. */
  lemma HalfObjectReplays(members: seq<Member>)
    requires NumbersFit(Object(members))
    ensures Replay(Start(), [ObjectBegin] + MemberEvents(members)).Built?
  {
    ReplayAppend(Start(), [ObjectBegin], MemberEvents(members));
    ReplayOne(Start(), ObjectBegin);
    ReplayMembers(Build(Object([]), [], false), members);
  }

  // ---- strings ----

  /** A string between quotes is all of the text, and is read as it stands. */
  ghost predicate ComesBack(x: string)
  {
    Parse("\"" + x + "\"", 0) == (Returned(String(x)), |x| + 2)
  }

  lemma ComesBackWhen(x: string)
    ensures ComesBack(x) <==> WellSpelled(x)
  {
    var s := "\"" + x + "\"";
    assert s[1..|s|] == x + "\"";
    ScanStopsAtQuote(x, s, 1);
    var g := ParseIs(s, 0);
    assert RunEnd(Space, s, 0) == 0;
    var e := Scan(s, 1);
    if e < |s| && s[e] == '"' {
      ClosedStringParses(g, s, e);
      assert e == 1 + |x| ==> s[1..e] == x && RunEnd(Space, s, e + 1) == |s|;
    } else {
      OpenStringFails(g, s, 0);
    }
  }

  /** Which strings come back, from their first characters on: nothing, a bare `\u` at the end, a plain
      character, one of eight escapes, or `\u` and four hexadecimal digits. */
  lemma StringsComeBack(x: string)
    ensures x == "" || x == "\\u" ==> ComesBack(x)
    ensures x != "" && x[0] != '\\' ==> (ComesBack(x) <==> x[0] != '"' && ComesBack(x[1..]))
    ensures x == "\\" ==> !ComesBack(x)
    ensures |x| > 1 && x[0] == '\\' && x[1] != 'u' ==>
      (ComesBack(x) <==> x[1] in ['"', '\\', '/', 'b', 'f', 'n', 'r', 't'] && ComesBack(x[2..]))
    ensures |x| > 2 && x[0] == '\\' && x[1] == 'u' ==>
      (ComesBack(x) <==>
        |x| >= 6 && (forall k :: 2 <= k < 6 ==> x[k] in "0123456789abcdefABCDEF") && ComesBack(x[6..]))
  {
    ComesBackWhen(x);
    if x != "" { ComesBackWhen(x[1..]); }
    if |x| > 1 { ComesBackWhen(x[2..]); }
    if |x| >= 6 {
      ComesBackWhen(x[6..]);
      forall k | 2 <= k < 6 ensures IsHex(x[k]) <==> x[k] in "0123456789abcdefABCDEF" { HexDigits(x[k]); }
    }
  }

  lemma HexDigits(ch: char)
    ensures IsHex(ch) <==> ch in "0123456789abcdefABCDEF"
  {
    var all := "0123456789abcdefABCDEF";
    if '0' <= ch <= '9' { assert all[ch as int - '0' as int] == ch; }
    if 'a' <= ch <= 'f' { assert all[10 + ch as int - 'a' as int] == ch; }
    if 'A' <= ch <= 'F' { assert all[16 + ch as int - 'A' as int] == ch; }
  }

  /** The three words. */
  lemma WordsParse()
    ensures Parse("null", 0) == (Returned(Null), 4)
    ensures Parse("true", 0) == (Returned(Bool(true)), 4)
    ensures Parse("false", 0) == (Returned(Bool(false)), 5)
  {
    OneWord(Null, "null");
    OneWord(Bool(true), "true");
    OneWord(Bool(false), "false");
  }

  lemma OneWord(v: Value, word: string)
    requires (v.Null? || v.Bool?) && Text(v) == word
    ensures Parse(word, 0) == (Returned(v), |word|)
  {
    LayoutParses("", Printed(v), "");
    assert "" + word + "" == word;
  }
}
