/** JSON values and their textual form (include/gcm/json/json.h). A string is a sequence of
    bytes, written as characters. */
module Json {

  /** A value behind a shared pointer; `Nil` is the null pointer. A double is carried by its
      decimal spelling. The members of an object are in the order of its std::map. */
  datatype Value =
    | Nil
    | Null
    | Bool(b: bool)
    | Int(i: int)
    | Double(spelling: string)
    | String(s: string)
    | Array(items: seq<Value>)
    | Object(members: seq<Member>)

  datatype Member = Member(key: string, value: Value)

  /** The order of std::map keys. */
  predicate Less(a: string, b: string)
  {
    if b == "" then false
    else if a == "" then true
    else a[0] < b[0] || (a[0] == b[0] && Less(a[1..], b[1..]))
  }

  predicate HasKey(ms: seq<Member>, k: string)
  {
    ms != [] && (ms[0].key == k || HasKey(ms[1..], k))
  }

  function Lookup(ms: seq<Member>, k: string): Value
  {
    if ms == [] then Nil else if ms[0].key == k then ms[0].value else Lookup(ms[1..], k)
  }

  /** `obj[k] = v`. */
  function Insert(ms: seq<Member>, k: string, v: Value): seq<Member>
  {
    if ms == [] then [Member(k, v)]
    else if ms[0].key == k then [Member(k, v)] + ms[1..]
    else if Less(k, ms[0].key) then [Member(k, v)] + ms
    else [ms[0]] + Insert(ms[1..], k, v)
  }

  /** What every std::map keeps: its keys are strictly ascending. */
  predicate Ascending(ms: seq<Member>)
  {
    |ms| <= 1 || (Less(ms[0].key, ms[1].key) && Ascending(ms[1..]))
  }

  lemma {:induction false} LessIsTransitive(a: string, b: string, c: string)
    requires Less(a, b) && Less(b, c)
    ensures Less(a, c)
  {
    if a != "" && a[0] == b[0] == c[0] { LessIsTransitive(a[1..], b[1..], c[1..]); }
  }

  lemma {:induction false} LessIsStrictAndTotal(a: string, b: string)
    ensures !(Less(a, b) && Less(b, a)) && !Less(a, a)
    ensures a == b || Less(a, b) || Less(b, a)
  {
    if a != "" {
      LessIsStrictAndTotal(a[1..], if b == "" then "" else b[1..]);
      if b != "" && a[0] == b[0] && a[1..] == b[1..] {
        assert a == [a[0]] + a[1..] && b == [b[0]] + b[1..];
      }
    }
  }

  lemma {:induction false} InsertMembers(ms: seq<Member>, k: string, v: Value)
    ensures forall m :: m in Insert(ms, k, v) ==> m in ms || m == Member(k, v)
  {
    if ms != [] && ms[0].key != k && !Less(k, ms[0].key) { InsertMembers(ms[1..], k, v); }
  }

  /** A map looks the same whichever way it was filled: the last value stored under a key is
      the one found there, the other keys are untouched, and the order is kept. */
  lemma {:induction false} InsertIsMapUpdate(ms: seq<Member>, k: string, v: Value, other: string)
    requires Ascending(ms)
    ensures Lookup(Insert(ms, k, v), other) == if other == k then v else Lookup(ms, other)
    ensures HasKey(Insert(ms, k, v), other) <==> other == k || HasKey(ms, other)
    ensures Ascending(Insert(ms, k, v))
    ensures Insert(ms, k, v)[0].key == if ms == [] || Less(k, ms[0].key) then k else ms[0].key
  {
    if ms != [] {
      LessIsStrictAndTotal(k, ms[0].key);
      if ms[0].key == k {
        assert Insert(ms, k, v)[1..] == ms[1..];
      } else if Less(k, ms[0].key) {
        assert Insert(ms, k, v)[1..] == ms;
      } else {
        InsertIsMapUpdate(ms[1..], k, v, other);
        assert Insert(ms, k, v)[1..] == Insert(ms[1..], k, v);
      }
    }
  }

  // ---- text ----

  function DigitChar(d: nat): char
    requires d < 16
  {
    if d < 10 then '0' + d as char else 'a' + (d - 10) as char
  }

  function Decimal(n: int): string
    decreases n < 0, if n < 0 then -n else n
  {
    if n < 0 then "-" + Decimal(-n)
    else if n < 10 then [DigitChar(n)]
    else Decimal(n / 10) + [DigitChar(n % 10)]
  }

  function Hex(n: nat): string
  {
    if n < 16 then [DigitChar(n)] else Hex(n / 16) + [DigitChar(n % 16)]
  }

  predicate IsPrint(ch: char) { ' ' <= ch <= '~' }

  /** `std::setw(2) << std::setfill('0') << std::hex << (int)ch`, with a signed char. */
  function CodePoint(ch: char): string
  {
    var n := ch as nat;
    var h := Hex(if n < 128 then n else 0xffffff00 + n);
    "\\u" + if |h| < 2 then "0" + h else h
  }

  /** How one character of a string is printed. Printable characters come first, so quotes,
      backslashes and slashes are never escaped; once a character had to be written as a code,
      all the following ones are. */
  function Piece(ch: char, unicode: bool): string
  {
    if unicode then CodePoint(ch)
    else if IsPrint(ch) then [ch]
    else if ch == 8 as char then "\\b"
    else if ch == 12 as char then "\\f"
    else if ch == '\n' then "\\n"
    else if ch == '\r' then "\\r"
    else if ch == '\t' then "\\t"
    else CodePoint(ch)
  }

  predicate Coded(ch: char)
  {
    !IsPrint(ch) && ch != 8 as char && ch != 12 as char && ch != '\n' && ch != '\r' && ch != '\t'
  }

  function Escaped(s: string, unicode: bool): string
  {
    if s == "" then "" else Piece(s[0], unicode) + Escaped(s[1..], unicode || Coded(s[0]))
  }

  function Text(v: Value): string
  {
    match v
    case Nil => "null"
    case Null => "null"
    case Bool(b) => if b then "true" else "false"
    case Int(i) => Decimal(i)
    case Double(spelling) => spelling
    case String(s) => "\"" + Escaped(s, false) + "\""
    case Array(items) => "[" + ItemsText(items) + "]"
    case Object(members) => "{" + MembersText(members) + "}"
  }

  function ItemsText(items: seq<Value>): string
  {
    if items == [] then "" else Text(items[0]) + MoreItemsText(items[1..])
  }

  function MoreItemsText(items: seq<Value>): string
  {
    if items == [] then "" else "," + Text(items[0]) + MoreItemsText(items[1..])
  }

  function MemberText(m: Member): string
  {
    "\"" + m.key + "\":" + Text(m.value)
  }

  function MembersText(members: seq<Member>): string
  {
    if members == [] then "" else MemberText(members[0]) + MoreMembersText(members[1..])
  }

  function MoreMembersText(members: seq<Member>): string
  {
    if members == [] then "" else "," + MemberText(members[0]) + MoreMembersText(members[1..])
  }

  /** Printing an array follows the pointers in it. */
  predicate NoNullItems(v: Value)
  {
    match v
    case Array(items) => forall x :: x in items ==> x != Nil && NoNullItems(x)
    case Object(members) => forall m :: m in members ==> NoNullItems(m.value)
    case _ => true
  }

  method ToString(v: Value) returns (text: string)
    requires v != Nil && NoNullItems(v)
    ensures text == Text(v)
  {
    match v {
      case Null => text := "null";
      case Bool(b) => text := if b then "true" else "false";
      case Int(i) => text := Decimal(i);
      case Double(spelling) => text := spelling;
      case String(s) => text := GetString(s);
      case Array(items) =>
        text := "[";
        for i := 0 to |items|
          invariant text + ItemsFrom(items, i) == "[" + ItemsText(items)
        {
          ghost var before := text;
          if i != 0 {
            text := text + ",";
          }
          assert items[i] in items;
          var t := ToString(items[i]);
          text := text + t;
          assert items[i..][1..] == items[i + 1..];
          Assoc(before, if i == 0 then t else "," + t, MoreItemsText(items[i + 1..]));
        }
        text := text + "]";
      case Object(members) =>
        text := "{";
        for i := 0 to |members|
          invariant text + MembersFrom(members, i) == "{" + MembersText(members)
        {
          ghost var before := text;
          if i != 0 {
            text := text + ",";
          }
          var m := members[i];
          assert m in members;
          if m.value != Nil {
            var t := ToString(m.value);
            text := text + ("\"" + m.key + "\":" + t);
          } else {
            text := text + ("\"" + m.key + "\":null");
            assert "\"" + m.key + "\":null" == MemberText(m);
          }
          assert text == before + (if i == 0 then MemberText(m) else "," + MemberText(m));
          assert members[i..][1..] == members[i + 1..];
          Assoc(before, if i == 0 then MemberText(m) else "," + MemberText(m), MoreMembersText(members[i + 1..]));
        }
        text := text + "}";
    }
  }

  /** What is still to be printed before item (or member) `i`, the comma included. */
  function ItemsFrom(items: seq<Value>, i: nat): string
    requires i <= |items|
  {
    if i == 0 then ItemsText(items) else MoreItemsText(items[i..])
  }

  function MembersFrom(members: seq<Member>, i: nat): string
    requires i <= |members|
  {
    if i == 0 then MembersText(members) else MoreMembersText(members[i..])
  }

  lemma Assoc(a: string, b: string, c: string)
    ensures (a + b) + c == a + (b + c)
  {
  }

  method GetString(s: string) returns (text: string)
    ensures text == "\"" + Escaped(s, false) + "\""
  {
    text := "\"";
    var unicode := false;
    for i := 0 to |s|
      invariant text + Escaped(s[i..], unicode) == "\"" + Escaped(s, false)
    {
      var ch := s[i];
      ghost var was := unicode;
      var piece := "";
      assert s[i..][1..] == s[i + 1..];
      if unicode {
        piece := CodePoint(ch);
      } else if IsPrint(ch) {
        piece := [ch];
      } else if ch == '\"' || ch == '\\' || ch == '/' {
        assert false;
      } else if ch == 8 as char {
        piece := "\\b";
      } else if ch == 12 as char {
        piece := "\\f";
      } else if ch == '\n' {
        piece := "\\n";
      } else if ch == '\r' {
        piece := "\\r";
      } else if ch == '\t' {
        piece := "\\t";
      } else {
        piece := CodePoint(ch);
        unicode := true;
      }
      assert piece == Piece(ch, was) && unicode == (was || Coded(ch));
      Assoc(text, piece, Escaped(s[i + 1..], unicode));
      text := text + piece;
    }
    text := text + "\"";
  }
}
