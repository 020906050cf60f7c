/** How strings are printed, character by character; and the order in which members are. */
module JsonPrinting {
  import opened Json

  /** Printable, or one of the five that have a short escape. */
  predicate Simple(ch: char)
  {
    ' ' <= ch <= '~' || ch == 8 as char || ch == 12 as char || ch == '\n' || ch == '\r' || ch == '\t'
  }

  /** Printable characters are printed as they are, quotes and backslashes too. */
  function Simply(x: string): string
    requires forall i :: 0 <= i < |x| ==> Simple(x[i])
  {
    if x == "" then "" else
    (if x[0] == 8 as char then "\\b"
     else if x[0] == 12 as char then "\\f"
     else if x[0] == '\n' then "\\n"
     else if x[0] == '\r' then "\\r"
     else if x[0] == '\t' then "\\t"
     else [x[0]]) + Simply(x[1..])
  }

  /** A byte as a code: two hexadecimal digits, and for a negative char the six that sign extension
      puts in front. */
  function Code(ch: char): string
    requires ch < 256 as char
  {
    var n, digits := ch as nat, "0123456789abcdef";
    "\\u" + (if n >= 128 then "ffffff" else "") + [digits[n / 16], digits[n % 16]]
  }

  function Codes(x: string): string
    requires forall i :: 0 <= i < |x| ==> x[i] < 256 as char
  {
    if x == "" then "" else Code(x[0]) + Codes(x[1..])
  }

  lemma DigitIs(d: nat)
    requires d < 16
    ensures DigitChar(d) == "0123456789abcdef"[d]
  {
  }

  lemma HexOfByte(n: nat)
    requires n < 256
    ensures Hex(n) == if n < 16 then [DigitChar(n)] else [DigitChar(n / 16), DigitChar(n % 16)]
  {
  }

  lemma HexOfNegative(n: nat)
    requires 128 <= n < 256
    ensures Hex(0xffffff00 + n) == "ffffff" + [DigitChar(n / 16), DigitChar(n % 16)]
  {
    var m := 0xffffff00 + n;
    assert m / 16 == 0xffffff0 + n / 16 && m % 16 == n % 16;
    assert m / 16 / 16 == 0xffffff && m / 16 % 16 == n / 16;
    assert Hex(0xffffff) == "ffffff" by {
      assert Hex(0xf) == "f" && Hex(0xff) == Hex(0xf) + "f" && Hex(0xfff) == Hex(0xff) + "f";
      assert Hex(0xffff) == Hex(0xfff) + "f" && Hex(0xfffff) == Hex(0xffff) + "f";
    }
    assert Hex(m / 16) == Hex(0xffffff) + [DigitChar(n / 16)];
    assert Hex(m) == Hex(m / 16) + [DigitChar(n % 16)];
  }

  lemma CodePointIs(ch: char)
    requires ch < 256 as char
    ensures CodePoint(ch) == Code(ch)
  {
    var n := ch as nat;
    DigitIs(n / 16);
    DigitIs(n % 16);
    if n < 128 { HexOfByte(n); } else { HexOfNegative(n); }
  }

  lemma {:induction false} CodesAre(x: string)
    requires forall i :: 0 <= i < |x| ==> x[i] < 256 as char
    ensures Escaped(x, true) == Codes(x)
  {
    if x != "" {
      CodePointIs(x[0]);
      CodesAre(x[1..]);
    }
  }

  lemma {:induction false} SimpleThen(a: string, rest: string)
    requires forall i :: 0 <= i < |a| ==> Simple(a[i])
    ensures Escaped(a + rest, false) == Simply(a) + Escaped(rest, false)
  {
    if a == "" {
      assert a + rest == rest;
    } else {
      assert (a + rest)[1..] == a[1..] + rest;
      SimpleThen(a[1..], rest);
    }
  }

  /** A string of bytes is printed up to its first uncommon character as it is, and from there on, common
      characters included, as codes. */
  lemma PrintedString(a: string, b: string)
    requires forall i :: 0 <= i < |a| ==> Simple(a[i])
    requires (b != "" ==> !Simple(b[0])) && forall i :: 0 <= i < |b| ==> b[i] < 256 as char
    ensures Text(String(a + b)) == "\"" + Simply(a) + Codes(b) + "\""
  {
    SimpleThen(a, b);
    if b != "" {
      CodePointIs(b[0]);
      CodesAre(b[1..]);
      assert Escaped(b, false) == Codes(b);
    }
    Quoted(Simply(a), Codes(b));
  }

  lemma Quoted(a: string, b: string)
    ensures "\"" + (a + b) + "\"" == "\"" + a + b + "\""
  {
  }

  /** Keys are in lexicographic order: of two, the first is a proper start of the second, or has the lesser
      character where they first differ. */
  lemma LessIsLexicographic(a: string, b: string)
    ensures Less(a, b) <==>
      exists k :: 0 <= k <= |a| && k < |b| && a[..k] == b[..k] && (k == |a| || a[k] < b[k])
  {
    if Less(a, b) {
      var k := FirstDifference(a, b);
    } else {
      forall k | 0 <= k <= |a| && k < |b| && a[..k] == b[..k] ensures !(k == |a| || a[k] < b[k]) {
        NoDifference(a, b, k);
      }
    }
  }

  lemma {:induction false} FirstDifference(a: string, b: string) returns (k: nat)
    requires Less(a, b)
    ensures k <= |a| && k < |b| && a[..k] == b[..k] && (k == |a| || a[k] < b[k])
    decreases |a|
  {
    k := 0;
    if a != "" && a[0] == b[0] {
      k := FirstDifference(a[1..], b[1..]);
      k := k + 1;
      assert a[..k] == [a[0]] + a[1..][..k - 1] && b[..k] == [b[0]] + b[1..][..k - 1];
    }
  }

  lemma {:induction false} NoDifference(a: string, b: string, k: nat)
    requires !Less(a, b) && k <= |a| && k < |b| && a[..k] == b[..k]
    ensures k < |a| && !(a[k] < b[k])
    decreases k
  {
    if k > 0 {
      assert a[0] == a[..k][0] == b[..k][0] == b[0];
      assert a[1..][..k - 1] == a[..k][1..] && b[1..][..k - 1] == b[..k][1..];
      NoDifference(a[1..], b[1..], k - 1);
    }
  }
}
