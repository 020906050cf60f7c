/** The XML writer (include/gcm/xml/writer.h): escaping by successive replacement in place, and the
    elements, which keep track of whether their start tag is still open. Nothing is indented
    (`format` is false). */
module XmlWriter {

  // ---- escaping ----

  predicate StartsWith(s: string, t: string) { |t| <= |s| && s[..|t|] == t }

  /** Every occurrence of `from` replaced, from the left, without looking into what was put in. */
  function Replaced(s: string, from: string, to: string): string
    requires from != ""
    decreases |s|
  {
    if s == "" then ""
    else if StartsWith(s, from) then to + Replaced(s[|from|..], from, to)
    else [s[0]] + Replaced(s[1..], from, to)
  }

  lemma {:induction false} ReplacedSkips(s: string, from: string, to: string, k: nat)
    requires from != "" && k <= |s| && forall i :: 0 <= i < k ==> !StartsWith(s[i..], from)
    ensures Replaced(s, from, to) == s[..k] + Replaced(s[k..], from, to)
    decreases k
  {
    if k == 0 {
      assert s[0..] == s;
    } else {
      assert s[0..] == s;
      assert forall i :: 0 <= i < k - 1 ==> s[1..][i..] == s[i + 1..];
      ReplacedSkips(s[1..], from, to, k - 1);
      assert s[1..][k - 1..] == s[k..];
      assert [s[0]] + s[1..][..k - 1] == s[..k];
    }
  }

  /** `str.find(from, pos)`; -1 stands for npos. */
  method Find(s: string, from: string, pos: nat) returns (r: int)
    requires from != "" && pos <= |s|
    ensures r == -1 || pos <= r < |s|
    ensures r == -1 ==> forall i :: pos <= i < |s| ==> !StartsWith(s[i..], from)
    ensures r != -1 ==> StartsWith(s[r..], from) && forall i :: pos <= i < r ==> !StartsWith(s[i..], from)
  {
    r := pos;
    while r < |s|
      invariant pos <= r <= |s| && forall i :: pos <= i < r ==> !StartsWith(s[i..], from)
    {
      if StartsWith(s[r..], from) { return; }
      r := r + 1;
    }
    r := -1;
  }

  /** The text before `pos` is done; what is left gets shorter by every replacement, even when
      `from` occurs in `to`. */
  method InlineReplace(src: string, from: string, to: string) returns (str: string)
    requires from != ""
    ensures str == Replaced(src, from, to)
  {
    str := src;
    var pos := 0;
    assert str[0..] == str;
    while true
      invariant 0 <= pos <= |str|
      invariant Replaced(src, from, to) == str[..pos] + Replaced(str[pos..], from, to)
      decreases |str| - pos
    {
      var found := Find(str, from, pos);
      if found == -1 {
        NothingFound(str, from, to, pos);
        return;
      }
      FoundAt(str, from, to, pos, found);
      var left := str[..found] + to;
      str := left + str[found + |from|..];
      pos := |left|;
    }
  }

  lemma NothingFound(str: string, from: string, to: string, pos: nat)
    requires from != "" && pos <= |str| && forall i :: pos <= i < |str| ==> !StartsWith(str[i..], from)
    ensures str[..pos] + Replaced(str[pos..], from, to) == str
  {
    var t := str[pos..];
    assert forall i :: 0 <= i < |t| ==> t[i..] == str[pos + i..];
    ReplacedSkips(t, from, to, |t|);
    assert t[|t|..] == "" && t[..|t|] == t;
  }

  lemma FoundAt(str: string, from: string, to: string, pos: nat, found: nat)
    requires from != "" && pos <= found < |str| && StartsWith(str[found..], from)
    requires forall i :: pos <= i < found ==> !StartsWith(str[i..], from)
    ensures found + |from| <= |str|
    ensures var left := str[..found] + to;
      var n := left + str[found + |from|..];
      str[..pos] + Replaced(str[pos..], from, to) == n[..|left|] + Replaced(n[|left|..], from, to)
  {
    var t, k := str[pos..], found - pos;
    var rest := str[found + |from|..];
    var left := str[..found] + to;
    assert Replaced(t, from, to) == t[..k] + (to + Replaced(rest, from, to)) by {
      assert forall i :: 0 <= i < k ==> t[i..] == str[pos + i..];
      ReplacedSkips(t, from, to, k);
      assert t[k..] == str[found..] && t[k..][|from|..] == rest;
    }
    Regroup(str[..pos], t[..k], to, Replaced(rest, from, to));
    assert str[..pos] + t[..k] == str[..found];
    assert (left + rest)[..|left|] == left && (left + rest)[|left|..] == rest;
  }

  lemma Regroup(a: string, b: string, c: string, d: string)
    ensures a + (b + (c + d)) == ((a + b) + c) + d
  {
  }

  /** What one character becomes. */
  function Entity(ch: char): string
  {
    if ch == '&' then "&amp;"
    else if ch == '"' then "&quot;"
    else if ch == '<' then "&lt;"
    else if ch == '>' then "&gt;"
    else [ch]
  }

  function Mapped(s: string): string
  {
    if s == "" then "" else Entity(s[0]) + Mapped(s[1..])
  }

  function Passes(s: string): string
  {
    Replaced(Replaced(Replaced(Replaced(s, "&", "&amp;"), "\"", "&quot;"), "<", "&lt;"), ">", "&gt;")
  }

  /** Replacing a single character works piece by piece. */
  lemma {:induction false} ReplacedJoins(a: string, b: string, c: char, to: string)
    ensures Replaced(a + b, [c], to) == Replaced(a, [c], to) + Replaced(b, [c], to)
    decreases |a|
  {
    if a == "" {
      assert a + b == b;
    } else {
      assert (a + b)[1..] == a[1..] + b;
      assert (a + b)[..1] == [a[0]] == a[..1];
      ReplacedJoins(a[1..], b, c, to);
    }
  }

  lemma {:induction false} ReplacedMisses(s: string, c: char, to: string)
    requires c !in s
    ensures Replaced(s, [c], to) == s
    decreases |s|
  {
    if s != "" {
      assert s[..1] == [s[0]];
      ReplacedMisses(s[1..], c, to);
      assert s == [s[0]] + s[1..];
    }
  }

  lemma ReplacedHit(c: char, to: string)
    ensures Replaced([c], [c], to) == to
  {
    assert [c][..1] == [c] && [c][1..] == "";
  }

  lemma PassesOne(ch: char)
    ensures Passes([ch]) == Entity(ch)
  {
    if ch == '&' {
      ReplacedHit('&', "&amp;");
      ReplacedMisses("&amp;", '"', "&quot;");
      ReplacedMisses("&amp;", '<', "&lt;");
      ReplacedMisses("&amp;", '>', "&gt;");
    } else {
      ReplacedMisses([ch], '&', "&amp;");
      PassesOther(ch);
    }
  }

  lemma PassesOther(ch: char)
    requires ch != '&'
    ensures Replaced(Replaced(Replaced([ch], "\"", "&quot;"), "<", "&lt;"), ">", "&gt;") == Entity(ch)
  {
    if ch == '"' {
      ReplacedHit('"', "&quot;");
      ReplacedMisses("&quot;", '<', "&lt;");
      ReplacedMisses("&quot;", '>', "&gt;");
    } else {
      ReplacedMisses([ch], '"', "&quot;");
      if ch == '<' {
        ReplacedHit('<', "&lt;");
        ReplacedMisses("&lt;", '>', "&gt;");
      } else {
        ReplacedMisses([ch], '<', "&lt;");
        if ch == '>' { ReplacedHit('>', "&gt;"); } else { ReplacedMisses([ch], '>', "&gt;"); }
      }
    }
  }

  lemma PassesJoin(a: string, b: string)
    ensures Passes(a + b) == Passes(a) + Passes(b)
  {
    ReplacedJoins(a, b, '&', "&amp;");
    var a1, b1 := Replaced(a, "&", "&amp;"), Replaced(b, "&", "&amp;");
    ReplacedJoins(a1, b1, '"', "&quot;");
    var a2, b2 := Replaced(a1, "\"", "&quot;"), Replaced(b1, "\"", "&quot;");
    ReplacedJoins(a2, b2, '<', "&lt;");
    var a3, b3 := Replaced(a2, "<", "&lt;"), Replaced(b2, "<", "&lt;");
    ReplacedJoins(a3, b3, '>', "&gt;");
  }

  /** The four passes over the whole string do what one pass over its characters does. */
  lemma {:induction false} PassesMap(s: string)
    ensures Passes(s) == Mapped(s)
    decreases |s|
  {
    if s != "" {
      assert s == [s[0]] + s[1..];
      PassesJoin([s[0]], s[1..]);
      PassesOne(s[0]);
      PassesMap(s[1..]);
    }
  }

  method Escape(src: string) returns (out: string)
    ensures out == Mapped(src)
  {
    out := InlineReplace(src, "&", "&amp;");
    out := InlineReplace(out, "\"", "&quot;");
    out := InlineReplace(out, "<", "&lt;");
    out := InlineReplace(out, ">", "&gt;");
    PassesMap(src);
  }

  // ---- reading entities back ----

  datatype Decoded = Decoded(text: string) | Malformed

  /** The predefined entities (section 4.6 of XML 1.0). Any other use of `&` is not understood. */
  function Decode(s: string): Decoded
    decreases |s|
  {
    if s == "" then Decoded("")
    else if s[0] != '&' then Prefixed(s[0], Decode(s[1..]))
    else if StartsWith(s, "&amp;") then Prefixed('&', Decode(s[5..]))
    else if StartsWith(s, "&quot;") then Prefixed('"', Decode(s[6..]))
    else if StartsWith(s, "&apos;") then Prefixed('\'', Decode(s[6..]))
    else if StartsWith(s, "&lt;") then Prefixed('<', Decode(s[4..]))
    else if StartsWith(s, "&gt;") then Prefixed('>', Decode(s[4..]))
    else Malformed
  }

  function Prefixed(ch: char, d: Decoded): Decoded
  {
    match d
    case Decoded(text) => Decoded([ch] + text)
    case Malformed => Malformed
  }

  lemma DecodeOne(ch: char, t: string)
    ensures Decode(Entity(ch) + t) == Prefixed(ch, Decode(t))
  {
    var e := Entity(ch);
    var s := e + t;
    assert s[|e|..] == t;
    assert s[0] == e[0];
    if |e| > 1 {
      assert e[1] == s[1] && e[2] == s[2] && e[3] == s[3];
      assert s[..|e|] == e;
      if ch == '"' { assert !StartsWith(s, "&amp;") by { assert s[..5][1] == 'q'; } }
      if ch == '<' {
        assert !StartsWith(s, "&amp;") by { if |s| >= 5 { assert s[..5][1] == 'l'; } }
        assert !StartsWith(s, "&quot;") by { if |s| >= 6 { assert s[..6][1] == 'l'; } }
        assert !StartsWith(s, "&apos;") by { if |s| >= 6 { assert s[..6][1] == 'l'; } }
      }
      if ch == '>' {
        assert !StartsWith(s, "&amp;") by { if |s| >= 5 { assert s[..5][1] == 'g'; } }
        assert !StartsWith(s, "&quot;") by { if |s| >= 6 { assert s[..6][1] == 'g'; } }
        assert !StartsWith(s, "&apos;") by { if |s| >= 6 { assert s[..6][1] == 'g'; } }
        assert !StartsWith(s, "&lt;") by { assert s[..4][1] == 'g'; }
      }
    }
  }

  /** Escaped text reads back as the original. */
  lemma {:induction false} DecodeMapped(s: string)
    ensures Decode(Mapped(s)) == Decoded(s)
    decreases |s|
  {
    if s != "" {
      DecodeOne(s[0], Mapped(s[1..]));
      DecodeMapped(s[1..]);
      assert s == [s[0]] + s[1..];
    }
  }

  /** And it holds no character that could end it. */
  lemma {:induction false} MappedIsSafe(s: string)
    ensures '"' !in Mapped(s) && '<' !in Mapped(s) && '>' !in Mapped(s)
    ensures s != "" ==> Mapped(s) != ""
    decreases |s|
  {
    if s != "" {
      EntityIsSafe(s[0]);
      MappedIsSafe(s[1..]);
    }
  }

  lemma EntityIsSafe(ch: char)
    ensures '"' !in Entity(ch) && '<' !in Entity(ch) && '>' !in Entity(ch) && Entity(ch) != ""
  {
  }

  // ---- elements ----

  const DECLARATION := "<?xml version=\"1.0\" encoding=\"UTF-8\"?>\n"

  /** An element that is being written. */
  datatype Open = Open(name: string, isInStartTag: bool)

  /** What has been written, and the elements being written, the innermost one last. */
  datatype Out = Out(stream: string, open: seq<Open>)

  datatype Call =
    | Begin(name: string)
    | Attribute(name: string, value: string)
    | Text(data: string)
    | End  // the element goes out of scope

  datatype Status = Done | SerializeException

  function StartTagEnded(o: Out): Out
  {
    if o.open != [] && o.open[|o.open| - 1].isInStartTag then
      Out(o.stream + ">", o.open[|o.open| - 1 := o.open[|o.open| - 1].(isInStartTag := false)])
    else o
  }

  /** Only `Begin` can be called without an element. */
  predicate Callable(o: Out, c: Call) { c.Begin? || o.open != [] }

  function Step(o: Out, c: Call): (Out, Status)
    requires Callable(o, c)
  {
    match c
    case Begin(name) =>
      var n := StartTagEnded(o);
      (Out(n.stream + "<" + name, n.open + [Open(name, true)]), Done)
    case Attribute(name, value) =>
      if !o.open[|o.open| - 1].isInStartTag then (o, SerializeException)
      else (o.(stream := o.stream + " " + name + "=\"" + Mapped(value) + "\""), Done)
    case Text(data) =>
      var n := StartTagEnded(o);
      (n.(stream := n.stream + Mapped(data)), Done)
    case End =>
      var top := o.open[|o.open| - 1];
      (Out(o.stream + if top.isInStartTag then "/>" else "</" + top.name + ">", o.open[..|o.open| - 1]), Done)
  }

  class Writer {
    var stream: string

    constructor (declaration: bool)
      ensures stream == if declaration then DECLARATION else ""
    {
      stream := if declaration then DECLARATION else "";
    }

    method Write(s: string)
      modifies this
      ensures stream == old(stream) + s
    {
      stream := stream + s;
    }
  }

  class Element {
    const writer: Writer
    const name: string
    var isInStartTag: bool

    /** The state as this element sees it; `outer` are the elements around it. */
    ghost function Now(outer: seq<Open>): Out
      reads this, writer
    {
      Out(writer.stream, outer + [Open(name, isInStartTag)])
    }

    constructor (writer: Writer, name: string)
      modifies writer
      ensures this.writer == writer && this.name == name && isInStartTag
      ensures writer.stream == old(writer.stream) + "<" + name
    {
      this.writer, this.name, isInStartTag := writer, name, true;
      new;
      writer.Write("<" + name);
    }

    method EndStartTag()
      modifies this, writer
      ensures forall outer :: Now(outer) == StartTagEnded(old(Now(outer)))
      ensures !isInStartTag
    {
      if isInStartTag {
        writer.Write(">");
        isInStartTag := false;
      }
    }

    method Child(childName: string) returns (e: Element)
      modifies this, writer
      ensures e.writer == writer && fresh(e)
      ensures forall outer :: e.Now(outer + [Open(name, isInStartTag)]) == Step(old(Now(outer)), Begin(childName)).0
    {
      EndStartTag();
      e := new Element(writer, childName);
    }

    method AddText(data: string)
      modifies this, writer
      ensures forall outer :: Now(outer) == Step(old(Now(outer)), Text(data)).0
    {
      EndStartTag();
      var escaped := Escape(data);
      writer.Write(escaped);
    }

    method AddAttribute(attribute: string, value: string) returns (status: Status)
      modifies writer
      ensures status == SerializeException <==> !isInStartTag
      ensures status == SerializeException ==> writer.stream == old(writer.stream)
      ensures status == Done ==>
        writer.stream == old(writer.stream) + " " + attribute + "=\"" + Mapped(value) + "\""
      ensures forall outer :: (Now(outer), status) == Step(old(Now(outer)), Attribute(attribute, value))
    {
      if !isInStartTag { return SerializeException; }
      var escaped := Escape(value);
      writer.Write(" ");
      writer.Write(attribute);
      writer.Write("=\"");
      writer.Write(escaped);
      writer.Write("\"");
      status := Done;
    }

    /** The destructor. */
    method Destroy()
      modifies writer
      ensures forall outer :: Out(writer.stream, outer) == Step(old(Now(outer)), End).0
    {
      if isInStartTag {
        writer.Write("/>");
      } else {
        writer.Write("</" + name + ">");
      }
    }
  }
}
