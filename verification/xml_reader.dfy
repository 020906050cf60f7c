/** A reader for what the writer can write, following the productions of XML 1.0 for characters
    (section 2.2), names and attribute values (2.3), character data (2.4), line ends (2.11), start
    tags, end tags and empty-element tags (3.1) and the normalisation of attribute values (3.3.3); and
    the proof that a tree comes back. */
module XmlReader {
  import opened XmlWriter
  import opened XmlRoundTrip

  // ---- characters and names (sections 2.2 and 2.3 of XML 1.0) ----

  predicate IsChar(ch: char)
  {
    var n := ch as int;
    n == 0x9 || n == 0xA || n == 0xD || 0x20 <= n <= 0xD7FF || 0xE000 <= n <= 0xFFFD || 0x10000 <= n <= 0x10FFFF
  }

  predicate AllChars(s: string) { forall i :: 0 <= i < |s| ==> IsChar(s[i]) }

  predicate IsNameStart(ch: char)
  {
    var n := ch as int;
    || 'a' <= ch <= 'z' || 'A' <= ch <= 'Z' || ch == '_' || ch == ':'
    || 0xC0 <= n <= 0xD6 || 0xD8 <= n <= 0xF6 || 0xF8 <= n <= 0x2FF || 0x370 <= n <= 0x37D || 0x37F <= n <= 0x1FFF
    || 0x200C <= n <= 0x200D || 0x2070 <= n <= 0x218F || 0x2C00 <= n <= 0x2FEF || 0x3001 <= n <= 0xD7FF
    || 0xF900 <= n <= 0xFDCF || 0xFDF0 <= n <= 0xFFFD || 0x10000 <= n <= 0xEFFFF
  }

  predicate IsNameChar(ch: char)
  {
    var n := ch as int;
    || IsNameStart(ch) || '0' <= ch <= '9' || ch == '-' || ch == '.'
    || n == 0xB7 || 0x300 <= n <= 0x36F || 0x203F <= n <= 0x2040
  }

  predicate IsName(s: string)
  {
    s != "" && IsNameStart(s[0]) && forall i :: 0 <= i < |s| ==> IsNameChar(s[i])
  }

  // ---- the reader ----

  function NameRun(t: string): (r: string)
    ensures r <= t
  {
    if t == "" || !IsNameChar(t[0]) then "" else [t[0]] + NameRun(t[1..])
  }

  function Before(t: string, stop: char): (r: string)
    ensures r <= t
  {
    if t == "" || t[0] == stop then "" else [t[0]] + Before(t[1..], stop)
  }

  /** What a processor makes of raw text: a line end is one line feed, and in the value of an attribute
      every piece of white space is a blank. */
  function Normal(raw: string, attr: bool): string
  {
    if raw == "" then ""
    else if raw[0] == '\r' then
      [if attr then ' ' else '\n'] + Normal(raw[if |raw| > 1 && raw[1] == '\n' then 2 else 1..], attr)
    else
      [if attr && (raw[0] == '\t' || raw[0] == '\n') then ' ' else raw[0]] + Normal(raw[1..], attr)
  }

  /** The value of an attribute: no `<` and nothing but characters. */
  function AttValue(raw: string): Decoded
  {
    if AllChars(raw) && '<' !in raw then Decode(Normal(raw, true)) else Malformed
  }

  /** Character data, up to the next `<`: it does not hold `]]>`. */
  function CharData(raw: string): Decoded
  {
    if AllChars(raw) && !Holds(raw, "]]>") then Decode(Normal(raw, false)) else Malformed
  }

  predicate Holds(s: string, t: string)
  {
    s != "" && (StartsWith(s, t) || Holds(s[1..], t))
  }

  predicate HasAttr(attrs: seq<Attr>, name: string)
  {
    attrs != [] && (attrs[0].name == name || HasAttr(attrs[1..], name))
  }

  datatype AttrsRead = Attrs(attrs: seq<Attr>, rest: string) | BadAttrs

  datatype AttrRead = One(attr: Attr, rest: string) | BadAttr

  /** White space, a name, an equals sign and a quoted value. */
  function ReadAttr(t: string): (r: AttrRead)
    ensures r.One? ==> |r.rest| < |t|
  {
    if t == "" || t[0] != ' ' then BadAttr else
    var name := NameRun(t[1..]);
    var t1 := t[1 + |name|..];
    if !IsName(name) || !StartsWith(t1, "=\"") then BadAttr else
    var raw := Before(t1[2..], '"');
    var t2 := t1[2 + |raw|..];
    if t2 == "" || !AttValue(raw).Decoded? then BadAttr else One(Attr(name, AttValue(raw).text), t2[1..])
  }

  /** No name may be there twice (section 3.1). */
  function ReadAttrs(t: string): (r: AttrsRead)
    ensures r.Attrs? ==> |r.rest| <= |t|
    decreases |t|
  {
    if t == "" || t[0] != ' ' then Attrs([], t)
    else
      match ReadAttr(t)
      case BadAttr => BadAttrs
      case One(a, rest) =>
        match ReadAttrs(rest)
        case BadAttrs => BadAttrs
        case Attrs(more, end) => if HasAttr(more, a.name) then BadAttrs else Attrs([a] + more, end)
  }

  datatype NodeRead = Node(node: XmlRoundTrip.Node, rest: string) | BadNode

  datatype ContentRead = Content(nodes: seq<XmlRoundTrip.Node>, rest: string) | BadContent

  function ReadElement(t: string): (r: NodeRead)
    ensures r.Node? ==> |r.rest| < |t|
    decreases |t|, 0
  {
    if t == "" || t[0] != '<' then BadNode
    else
      var name := NameRun(t[1..]);
      if !IsName(name) then BadNode
      else
        match ReadAttrs(t[1 + |name|..])
        case BadAttrs => BadNode
        case Attrs(attrs, t1) =>
          if StartsWith(t1, "/>") then Node(Tag(name, attrs, []), t1[2..])
          else if !StartsWith(t1, ">") then BadNode
          else
            match ReadContent(t1[1..])
            case BadContent => BadNode
            case Content(nodes, t2) =>
              var end := "</" + name + ">";
              if StartsWith(t2, end) then Node(Tag(name, attrs, nodes), t2[|end|..]) else BadNode
  }

  /** Elements and runs of character data, up to an end tag. */
  function ReadContent(t: string): (r: ContentRead)
    ensures r.Content? ==> |r.rest| <= |t|
    decreases |t|, 1
  {
    if t == "" || StartsWith(t, "</") then Content([], t)
    else if t[0] == '<' then
      match ReadElement(t)
      case BadNode => BadContent
      case Node(node, rest) => Prepended(node, ReadContent(rest))
    else
      var raw := Before(t, '<');
      if !CharData(raw).Decoded? then BadContent
      else Prepended(Data(CharData(raw).text), ReadContent(t[|raw|..]))
  }

  function Prepended(node: XmlRoundTrip.Node, r: ContentRead): ContentRead
  {
    match r
    case Content(nodes, rest) => Content([node] + nodes, rest)
    case BadContent => BadContent
  }

  // ---- what can come back ----

  /** Characters that a processor leaves alone: no carriage return, and in the value of an attribute
      no white space but blanks. */
  predicate Kept(s: string, attr: bool)
  {
    forall i :: 0 <= i < |s| ==> IsChar(s[i]) && s[i] != '\r' && (attr ==> s[i] != '\t' && s[i] != '\n')
  }

  /** Names are names, attributes differ in theirs, all is made of characters that are left alone, and
      no piece of text is empty or touches another one. */
  predicate Writable(n: XmlRoundTrip.Node)
  {
    match n
    case Data(text) => text != "" && Kept(text, false)
    case Tag(name, attrs, content) => IsName(name) && AttrsWritable(attrs) && AllWritable(content)
  }

  predicate AttrsWritable(attrs: seq<Attr>)
  {
    attrs == [] ||
    (IsName(attrs[0].name) && Kept(attrs[0].value, true) && !HasAttr(attrs[1..], attrs[0].name)
      && AttrsWritable(attrs[1..]))
  }

  predicate AllWritable(ns: seq<XmlRoundTrip.Node>)
  {
    ns == [] || (Writable(ns[0]) && (ns[0].Data? && |ns| > 1 ==> !ns[1].Data?) && AllWritable(ns[1..]))
  }

  // ---- reading the parts ----

  lemma {:induction false} ReadsName(name: string, rest: string)
    requires (forall i :: 0 <= i < |name| ==> IsNameChar(name[i])) && (rest == "" || !IsNameChar(rest[0]))
    ensures NameRun(name + rest) == name
    decreases |name|
  {
    if name == "" {
      assert name + rest == rest;
    } else {
      assert (name + rest)[1..] == name[1..] + rest;
      ReadsName(name[1..], rest);
    }
  }

  lemma {:induction false} ReadsBefore(raw: string, stop: char, rest: string)
    requires stop !in raw && (rest == "" || rest[0] == stop)
    ensures Before(raw + rest, stop) == raw
    decreases |raw|
  {
    if raw == "" {
      assert raw + rest == rest;
    } else {
      assert (raw + rest)[1..] == raw[1..] + rest;
      ReadsBefore(raw[1..], stop, rest);
    }
  }

  lemma StartsWithItself(s: string, rest: string)
    ensures StartsWith(s + rest, s) && (s + rest)[|s|..] == rest
  {
  }

  lemma {:induction false} MappedIsKept(s: string, attr: bool)
    requires Kept(s, attr)
    ensures Kept(Mapped(s), attr)
  {
    if s != "" {
      assert forall i :: 0 <= i < |s| - 1 ==> s[1..][i] == s[i + 1];
      MappedIsKept(s[1..], attr);
    }
  }

  lemma {:induction false} KeptIsNormal(s: string, attr: bool)
    requires Kept(s, attr)
    ensures Normal(s, attr) == s
  {
    if s != "" {
      assert forall i :: 0 <= i < |s| - 1 ==> s[1..][i] == s[i + 1];
      KeptIsNormal(s[1..], attr);
      assert s == [s[0]] + s[1..];
    }
  }

  lemma {:induction false} NormalIsKept(raw: string, attr: bool)
    requires AllChars(raw)
    ensures Kept(Normal(raw, attr), attr) && (raw != "" ==> Normal(raw, attr) != "")
    decreases |raw|
  {
    if raw != "" {
      var n := if raw[0] == '\r' && |raw| > 1 && raw[1] == '\n' then 2 else 1;
      assert forall i :: 0 <= i < |raw| - n ==> raw[n..][i] == raw[i + n];
      NormalIsKept(raw[n..], attr);
      assert IsChar(raw[0]);
    }
  }

  lemma {:induction false} NoCdataEnd(s: string)
    requires '>' !in s
    ensures !Holds(s, "]]>")
  {
    if s != "" {
      assert !StartsWith(s, "]]>") by { if |s| >= 3 { assert s[..3][2] == s[2]; } }
      NoCdataEnd(s[1..]);
    }
  }

  /** Escaped text is what an attribute value and character data may be, and stands for the text. */
  lemma MappedReads(s: string, attr: bool)
    requires Kept(s, attr)
    ensures (if attr then AttValue(Mapped(s)) else CharData(Mapped(s))) == Decoded(s)
  {
    MappedIsKept(s, attr);
    KeptIsNormal(Mapped(s), attr);
    MappedIsSafe(s);
    NoCdataEnd(Mapped(s));
    DecodeMapped(s);
  }

  /** Where the parts of a printed attribute are. */
  lemma AttrSpots(name: string, raw: string, rest: string)
    ensures var t := " " + name + "=\"" + raw + "\"" + rest;
      var t1 := "=\"" + raw + "\"" + rest;
      && t[0] == ' ' && t[1..] == name + t1 && t[1 + |name|..] == t1
      && StartsWith(t1, "=\"") && t1[2..] == raw + ("\"" + rest) && t1[2 + |raw|..] == "\"" + rest
  {
  }

  lemma ReadsRaw(name: string, raw: string, text: string, rest: string)
    requires IsName(name) && '"' !in raw && AttValue(raw) == Decoded(text)
    ensures ReadAttr(" " + name + "=\"" + raw + "\"" + rest) == One(Attr(name, text), rest)
  {
    var t1 := "=\"" + raw + "\"" + rest;
    AttrSpots(name, raw, rest);
    assert NameRun(name + t1) == name by { ReadsName(name, t1); }
    assert Before(raw + ("\"" + rest), '"') == raw by { ReadsBefore(raw, '"', "\"" + rest); }
    assert ("\"" + rest)[1..] == rest;
  }

  /** One printed attribute, whatever comes after it. */
  lemma ReadsAttr(a: Attr, rest: string, t: string)
    requires IsName(a.name) && Kept(a.value, true) && t == AttrText(a) + rest
    ensures ReadAttr(t) == One(a, rest)
  {
    var raw := Mapped(a.value);
    MappedReads(a.value, true);
    MappedIsSafe(a.value);
    ReadsRaw(a.name, raw, a.value, rest);
    assert t == " " + a.name + "=\"" + raw + "\"" + rest;
  }

  lemma ReadsNoAttrs(rest: string)
    requires rest == "" || rest[0] != ' '
    ensures ReadAttrs(rest) == Attrs([], rest)
  {
  }

  lemma {:induction false} ReadsAttrs(attrs: seq<Attr>, rest: string, t: string)
    requires AttrsWritable(attrs) && (rest == "" || rest[0] != ' ')
    requires t == AttrsText(attrs) + rest
    ensures ReadAttrs(t) == Attrs(attrs, rest)
    decreases attrs
  {
    if attrs == [] {
      assert t == rest;
      ReadsNoAttrs(rest);
    } else {
      var a, others := attrs[0], attrs[1..];
      var m := AttrsText(others) + rest;
      assert t == AttrText(a) + m by { Regroup3(AttrText(a), AttrsText(others), rest); }
      assert ReadAttrs(m) == Attrs(others, rest) by { ReadsAttrs(others, rest, m); }
      ReadsAttr(a, m, t);
      assert [a] + others == attrs;
    }
  }

  lemma AttrsStart(attrs: seq<Attr>, rest: string)
    requires rest != "" && !IsNameChar(rest[0])
    ensures AttrsText(attrs) + rest != "" && !IsNameChar((AttrsText(attrs) + rest)[0])
  {
    if attrs != [] { assert AttrsText(attrs)[0] == ' '; }
  }

  lemma StartSpots(name: string, attrs: string, tail: string, t: string)
    requires t == "<" + name + attrs + tail
    ensures t[0] == '<' && t[1..] == name + (attrs + tail) && t[1 + |name|..] == attrs + tail
  {
  }

  /** The start of a start tag: name and attributes. `tail` is what follows them. */
  lemma ReadsStart(name: string, attrs: seq<Attr>, tail: string, t: string)
    requires IsName(name) && AttrsWritable(attrs)
    requires tail != "" && (tail[0] == '/' || tail[0] == '>')
    requires t == "<" + name + AttrsText(attrs) + tail
    ensures t[0] == '<' && NameRun(t[1..]) == name
    ensures ReadAttrs(t[1 + |name|..]) == Attrs(attrs, tail)
  {
    var t1 := AttrsText(attrs) + tail;
    StartSpots(name, AttrsText(attrs), tail, t);
    assert NameRun(name + t1) == name by {
      AttrsStart(attrs, tail);
      ReadsName(name, t1);
    }
    ReadsAttrs(attrs, tail, t1);
  }

  lemma ElementEnds(name: string, attrs: seq<Attr>, tail: string, t: string)
    requires t != "" && t[0] == '<' && NameRun(t[1..]) == name && IsName(name)
    requires ReadAttrs(t[1 + |name|..]) == Attrs(attrs, tail) && StartsWith(tail, "/>")
    ensures ReadElement(t) == Node(Tag(name, attrs, []), tail[2..])
  {
  }

  lemma ReadsEmptyTag(name: string, attrs: seq<Attr>, rest: string, t: string)
    requires IsName(name) && AttrsWritable(attrs)
    requires t == "<" + name + AttrsText(attrs) + ("/>" + rest)
    ensures ReadElement(t) == Node(Tag(name, attrs, []), rest)
  {
    var tail := "/>" + rest;
    ReadsStart(name, attrs, tail, t);
    assert StartsWith(tail, "/>") && tail[2..] == rest by { StartsWithItself("/>", rest); }
    ElementEnds(name, attrs, tail, t);
  }

  /** `inner` is the content, the end tag and what follows. */
  lemma ReadsFullTag(name: string, attrs: seq<Attr>, content: seq<XmlRoundTrip.Node>, inner: string, rest: string,
                     t: string)
    requires IsName(name) && AttrsWritable(attrs)
    requires ReadContent(inner) == Content(content, "</" + name + ">" + rest)
    requires t == "<" + name + AttrsText(attrs) + (">" + inner)
    ensures ReadElement(t) == Node(Tag(name, attrs, content), rest)
  {
    ReadsStart(name, attrs, ">" + inner, t);
    StartsWithItself(">", inner);
    StartsWithItself("</" + name + ">", rest);
    assert !StartsWith(">" + inner, "/>");
  }

  lemma {:induction false} ReadsElement(n: XmlRoundTrip.Node, rest: string, t: string)
    requires n.Tag? && Writable(n) && t == Rendered(n) + rest
    ensures ReadElement(t) == Node(n, rest)
    decreases n, 0
  {
    var start := "<" + n.name + AttrsText(n.attrs);
    if n.content == [] {
      Regroup3(start, "/>", rest);
      ReadsEmptyTag(n.name, n.attrs, rest, t);
    } else {
      var end := "</" + n.name + ">" + rest;
      var inner := AllRendered(n.content) + end;
      assert t == start + (">" + inner);
      ReadsContent(n.content, end, inner);
      ReadsFullTag(n.name, n.attrs, n.content, inner, rest, t);
    }
  }

  /** What follows a node does not continue a run of text. */
  lemma NextStarts(ns: seq<XmlRoundTrip.Node>, rest: string)
    requires StartsWith(rest, "</") && (ns != [] ==> ns[0].Tag?)
    ensures AllRendered(ns) + rest != "" && (AllRendered(ns) + rest)[0] == '<'
  {
    if ns == [] {
      assert AllRendered(ns) + rest == rest;
      assert rest[..2][0] == rest[0];
    } else {
      assert Rendered(ns[0])[0] == '<';
    }
  }

  lemma ReadsText(text: string, m: string, nodes: seq<XmlRoundTrip.Node>, rest: string, t: string)
    requires text != "" && Kept(text, false) && t == Mapped(text) + m && m != "" && m[0] == '<'
    requires ReadContent(m) == Content(nodes, rest)
    ensures ReadContent(t) == Content([Data(text)] + nodes, rest)
  {
    var raw := Mapped(text);
    MappedIsSafe(text);
    assert t[0] == raw[0] && raw[0] in raw;
    assert !StartsWith(t, "</") by { if |t| >= 2 { assert t[..2][0] == t[0]; } }
    ReadsBefore(raw, '<', m);
    MappedReads(text, false);
    assert t[|raw|..] == m;
  }

  lemma ReadsChild(n: XmlRoundTrip.Node, m: string, nodes: seq<XmlRoundTrip.Node>, rest: string, t: string)
    requires n.Tag? && IsName(n.name) && t == Rendered(n) + m
    requires ReadElement(t) == Node(n, m) && ReadContent(m) == Content(nodes, rest)
    ensures ReadContent(t) == Content([n] + nodes, rest)
  {
    assert t[1] == n.name[0] && t[0] == '<';
    assert !StartsWith(t, "</") by { assert t[..2][1] == t[1]; }
  }

  lemma {:induction false} ReadsContent(ns: seq<XmlRoundTrip.Node>, rest: string, t: string)
    requires AllWritable(ns) && StartsWith(rest, "</") && t == AllRendered(ns) + rest
    ensures ReadContent(t) == Content(ns, rest)
    decreases ns, 1
  {
    if ns == [] {
      assert t == rest;
    } else {
      var n, more := ns[0], ns[1..];
      var m := AllRendered(more) + rest;
      assert t == Rendered(n) + m by { Regroup3(Rendered(n), AllRendered(more), rest); }
      assert ReadContent(m) == Content(more, rest) by { ReadsContent(more, rest, m); }
      assert ReadContent(t) == Content([n] + more, rest) by {
        if n.Data? {
          assert m != "" && m[0] == '<' by { NextStarts(more, rest); }
          ReadsText(n.text, m, more, rest, t);
        } else {
          assert ReadElement(t) == Node(n, m) by { ReadsElement(n, m, t); }
          ReadsChild(n, m, more, rest, t);
        }
      }
      assert [n] + more == ns;
    }
  }

  // ---- what the reader returns ----

  /** Decoding gives characters of the same kind, and something from something. */
  lemma {:induction false} DecodedIsKept(s: string, attr: bool)
    requires Kept(s, attr) && Decode(s).Decoded?
    ensures Kept(Decode(s).text, attr) && (s != "" ==> Decode(s).text != "")
    decreases |s|
  {
    if s != "" {
      var rest := s[DecodedLength(s)..];
      assert forall i :: 0 <= i < |rest| ==> rest[i] == s[i + DecodedLength(s)];
      DecodedIsKept(rest, attr);
      assert IsChar(s[0]);
    }
  }

  lemma ValueIsKept(raw: string)
    ensures AttValue(raw).Decoded? ==> Kept(AttValue(raw).text, true)
    ensures CharData(raw).Decoded? ==> Kept(CharData(raw).text, false) && (raw != "" ==> CharData(raw).text != "")
  {
    if AllChars(raw) {
      NormalIsKept(raw, true);
      NormalIsKept(raw, false);
    }
    if AttValue(raw).Decoded? { DecodedIsKept(Normal(raw, true), true); }
    if CharData(raw).Decoded? { DecodedIsKept(Normal(raw, false), false); }
  }

  /** How much of the text its first decoded character takes. */
  function DecodedLength(s: string): (n: nat)
    requires s != "" && Decode(s).Decoded?
    ensures 0 < n <= |s|
    ensures Decode(s[n..]).Decoded?
    ensures exists ch :: (ch == s[0] || ch in "&\"'<>") && Decode(s) == Prefixed(ch, Decode(s[n..]))
  {
    if s[0] != '&' then 1
    else if StartsWith(s, "&amp;") then 5
    else if StartsWith(s, "&quot;") || StartsWith(s, "&apos;") then 6
    else 4
  }

  lemma {:induction false} BeforeStops(t: string, stop: char)
    ensures var rest := t[|Before(t, stop)|..]; rest == "" || rest[0] == stop
    decreases |t|
  {
    if t != "" && t[0] != stop {
      BeforeStops(t[1..], stop);
      assert t[|Before(t, stop)|..] == t[1..][|Before(t[1..], stop)|..];
    }
  }

  lemma {:induction false} AttrsAreWritable(t: string)
    ensures ReadAttrs(t).Attrs? ==> AttrsWritable(ReadAttrs(t).attrs)
    decreases |t|
  {
    if ReadAttrs(t).Attrs? && t != "" && t[0] == ' ' {
      var name := NameRun(t[1..]);
      var t1 := t[1 + |name|..];
      var raw := Before(t1[2..], '"');
      ValueIsKept(raw);
      AttrsAreWritable(t1[2 + |raw|..][1..]);
    }
  }

  lemma {:induction false} ElementIsWritable(t: string)
    ensures ReadElement(t).Node? ==> ReadElement(t).node.Tag? && Writable(ReadElement(t).node)
    decreases |t|, 0
  {
    if ReadElement(t).Node? {
      var t0 := t[1 + |NameRun(t[1..])|..];
      AttrsAreWritable(t0);
      var t1 := ReadAttrs(t0).rest;
      if !StartsWith(t1, "/>") { ContentIsWritable(t1[1..]); }
    }
  }

  /** Text comes up to the next tag, so no two pieces touch. */
  lemma {:induction false} ContentIsWritable(t: string)
    ensures var r := ReadContent(t);
      r.Content? ==> AllWritable(r.nodes) && (t != "" && t[0] == '<' && r.nodes != [] ==> r.nodes[0].Tag?)
    decreases |t|, 1
  {
    if ReadContent(t).Content? && t != "" && !StartsWith(t, "</") {
      if t[0] == '<' {
        ElementIsWritable(t);
        ContentIsWritable(ReadElement(t).rest);
      } else {
        var raw := Before(t, '<');
        var rest := t[|raw|..];
        ValueIsKept(raw);
        BeforeStops(t, '<');
        ContentIsWritable(rest);
        TextIsWritable(CharData(raw).text, ReadContent(rest).nodes, rest);
      }
    }
  }

  lemma TextIsWritable(text: string, nodes: seq<XmlRoundTrip.Node>, rest: string)
    requires text != "" && Kept(text, false) && AllWritable(nodes) && (nodes != [] ==> nodes[0].Tag?)
    ensures AllWritable([Data(text)] + nodes)
  {
    assert ([Data(text)] + nodes)[1..] == nodes;
  }

  // ---- the round trip ----

  /** Written with the writer's calls after anything, an element is read back from what they added
      exactly when it is writable. */
  lemma TreeRoundTrip(o: Out, n: XmlRoundTrip.Node, rest: string)
    requires n.Tag?
    ensures Run(o, Calls(n)) == Ran(Added(StartTagEnded(o), Rendered(n)))
    ensures ReadElement(Rendered(n) + rest) == Node(n, rest) <==> Writable(n)
  {
    WritesNode(o, n);
    var t := Rendered(n) + rest;
    ElementIsWritable(t);
    if Writable(n) { ReadsElement(n, rest, t); }
  }

  /** A whole document: the declaration, then the tree, and nothing else. */
  lemma DocumentRoundTrip(n: XmlRoundTrip.Node)
    requires n.Tag?
    ensures var r, declaration := Run(Out(DECLARATION, []), Calls(n)), "<?xml version=\"1.0\" encoding=\"UTF-8\"?>\n";
      && r.Ran? && r.out.open == [] && StartsWith(r.out.stream, declaration)
      && (ReadElement(r.out.stream[|declaration|..]) == Node(n, "") <==> Writable(n))
  {
    TreeRoundTrip(Out(DECLARATION, []), n, "");
    assert Rendered(n) + "" == Rendered(n);
    StartsWithItself(DECLARATION, Rendered(n));
  }
}
