/** Which values come back from their own text: a condition that is exact for every value whose printing
    is modelled. The strings of the parsed tree are runs of the text that start after a quote; weighing
    them says which values can be made of such runs. */
module JsonExact {
  import opened Grammars
  import opened Engine
  import opened EngineLaws
  import opened JsonGrammar
  import opened JsonMatching
  import opened Json
  import opened Builder
  import opened JsonParse
  import opened JsonRoundTrip
  import opened JsonTheorems
  import opened JsonReader
  import opened JsonConverse
  import opened JsonFaults
  import opened JsonWeights

  // ---- the runs that the reader takes from a text ----

  predicate Takes(e: Engine.Event)
  {
    e.Fired? && (e.action == STRING_VALUE || e.action == OBJ_ITEM)
  }

  /** The calls that are given strings or keys are given runs that start after a quote, one after
      another between two places. */
  predicate Runs(s: string, t: seq<Engine.Event>, p: nat, q: nat)
    decreases t
  {
    if t == [] then p <= q
    else if !Takes(t[0]) then Runs(s, t[1..], p, q)
    else
      var from, to := t[0].from, t[0].to;
      p < from <= |s| && s[from - 1] == '"' && to == Scan(s, from) && Runs(s, t[1..], to, q)
  }

  lemma {:induction false} RunsJoin(s: string, t: seq<Engine.Event>, u: seq<Engine.Event>, p: nat, m: nat, q: nat)
    requires Runs(s, t, p, m) && Runs(s, u, m, q)
    ensures Runs(s, t + u, p, q)
    decreases t
  {
    if t == [] {
      RunsWiden(s, u, p, m, q, q);
      assert t + u == u;
    } else {
      assert (t + u)[1..] == t[1..] + u;
      RunsJoin(s, t[1..], u, if Takes(t[0]) then t[0].to else p, m, q);
    }
  }

  lemma {:induction false} RunsWiden(s: string, t: seq<Engine.Event>, p: nat, p2: nat, q: nat, q2: nat)
    requires Runs(s, t, p2, q) && p <= p2 && q <= q2
    ensures Runs(s, t, p, q2)
    decreases t
  {
    if t != [] {
      if Takes(t[0]) { RunsWiden(s, t[1..], t[0].to, t[0].to, q, q2); } else { RunsWiden(s, t[1..], p, p2, q, q2); }
    }
  }

  lemma QuotedTakes(s: string, p: nat, action: ActionId)
    requires p < |s| && s[p] == '"'
    ensures var o := QuotedRun(s, p, action).o; Runs(s, o.trace, p, o.pos)
  {
    var e := Scan(s, p + 1);
    assert [Fired(action, p + 1, e)][1..] == [];
  }

  lemma PlainTakes(s: string, p: nat, e: Engine.Event, q: nat)
    requires !Takes(e) && p <= q
    ensures Runs(s, [e], p, q)
  {
    assert [e][1..] == [];
  }

  lemma RunsJoin3(s: string, a: Outcome, b: Outcome, c: Outcome, p: nat)
    requires Runs(s, a.trace, p, a.pos) && Runs(s, b.trace, a.pos, b.pos) && Runs(s, c.trace, b.pos, c.pos)
    ensures Runs(s, a.trace + b.trace, p, b.pos) && Runs(s, a.trace + b.trace + c.trace, p, c.pos)
  {
    RunsJoin(s, a.trace, b.trace, p, a.pos, b.pos);
    RunsJoin(s, a.trace + b.trace, c.trace, p, b.pos, c.pos);
  }

  lemma {:induction false} ValueTakes(s: string, p: nat)
    requires p <= |s|
    ensures var o := ReadValue(s, p).o; Runs(s, o.trace, p, o.pos)
    decreases |s| - p, 1
  {
    if p < |s| && s[p] == '"' {
      QuotedTakes(s, p, STRING_VALUE);
      var x := QuotedRun(s, p, STRING_VALUE).o;
      if !x.ok { BracketsTake(s, p, x); }
    } else if p < |s| && s[p] == '[' {
      ArrayTakes(s, p);
      ObjectTakes(s, ReadArray(s, p).o.pos);
      ArrayStarts(s, p);
    } else if p < |s| && s[p] == '{' {
      ObjectTakes(s, p);
    } else {
      WordsTake(s, p);
    }
  }

  lemma ArrayStarts(s: string, p: nat)
    requires p < |s| && s[p] == '['
    requires var a := ReadArray(s, p).o;
      Runs(s, a.trace, p, a.pos) && var b := ReadObject(s, a.pos).o; Runs(s, b.trace, a.pos, b.pos)
    ensures var o := ReadValue(s, p).o; Runs(s, o.trace, p, o.pos)
  {
    var a := ReadArray(s, p).o;
    RunsJoin(s, a.trace, ReadObject(s, a.pos).o.trace, p, a.pos, ReadObject(s, a.pos).o.pos);
  }

  /** An array, or else an object, tried where a string has stopped short. */
  lemma {:induction false} BracketsTake(s: string, p: nat, x: Outcome)
    requires p < x.pos <= |s| && Runs(s, x.trace, p, x.pos)
    ensures var a := ReadArray(s, x.pos).o;
      var b := ReadObject(s, a.pos).o;
      Runs(s, Then(x, a).trace, p, a.pos) && Runs(s, Then(Then(x, a), b).trace, p, b.pos)
    decreases |s| - x.pos, 1
  {
    var a := ReadArray(s, x.pos).o;
    ArrayTakes(s, x.pos);
    ObjectTakes(s, a.pos);
    RunsJoin3(s, x, a, ReadObject(s, a.pos).o, p);
  }

  lemma WordsTake(s: string, p: nat)
    requires p <= |s| && (p < |s| ==> s[p] != '"' && s[p] != '[' && s[p] != '{')
    ensures var o := ReadValue(s, p).o; Runs(s, o.trace, p, o.pos)
  {
    var o := ReadValue(s, p).o;
    if o.trace != [] {
      assert o.trace == [o.trace[0]] && !Takes(o.trace[0]);
      PlainTakes(s, p, o.trace[0], o.pos);
    }
  }

  /** A bracketed part whose inner part takes runs. */
  lemma ClosedTakes(s: string, p: nat, begin: ActionId, inner: Reading, q: nat, d: char, end: ActionId)
    requires p < q <= inner.o.pos <= |s| && Runs(s, inner.o.trace, q, inner.o.pos)
    requires !Takes(Fired(begin, p, p + 1)) && !Takes(Fired(end, p, p + 1))
    ensures var o := Closed(s, p, begin, inner, d, end).o; Runs(s, o.trace, p, o.pos)
  {
    var w := RunEnd(Space, s, inner.o.pos);
    var calls := [Fired(begin, p, p + 1)] + inner.o.trace;
    PlainTakes(s, p, Fired(begin, p, p + 1), q);
    RunsJoin(s, [Fired(begin, p, p + 1)], inner.o.trace, p, q, inner.o.pos);
    RunsWiden(s, calls, p, p, inner.o.pos, w);
    PlainTakes(s, w, Fired(end, w, w + 1), w + 1);
    RunsJoin(s, calls, [Fired(end, w, w + 1)], p, w, w + 1);
  }

  lemma {:induction false} ArrayTakes(s: string, p: nat)
    requires p <= |s|
    ensures var o := ReadArray(s, p).o; Runs(s, o.trace, p, o.pos)
    decreases |s| - p, 0
  {
    if p < |s| && s[p] == '[' {
      var q := RunEnd(Space, s, p + 1);
      ItemsTake(s, q);
      ClosedTakes(s, p, ARRAY_BEGIN, ReadItems(s, q), q, ']', ARRAY_END);
    }
  }

  lemma {:induction false} ObjectTakes(s: string, p: nat)
    requires p <= |s|
    ensures var o := ReadObject(s, p).o; Runs(s, o.trace, p, o.pos)
    decreases |s| - p, 0
  {
    if p < |s| && s[p] == '{' {
      var q := RunEnd(Space, s, p + 1);
      MembersTake(s, q);
      ClosedTakes(s, p, OBJ_BEGIN, ReadMembers(s, q), q, '}', OBJ_END);
    }
  }

  lemma {:induction false} ItemTakes(s: string, q: nat)
    requires q <= |s|
    ensures var o := ReadItem(s, q).o; Runs(s, o.trace, q, o.pos)
    decreases |s| - q, 2
  {
    if q == |s| || s[q] != ']' {
      var v, h := ReadValue(s, q).o, ReadItem(s, q).o;
      ValueTakes(s, q);
      PlainTakes(s, q, Fired(ARRAY_ITEM, q, q), q);
      RunsJoin(s, [Fired(ARRAY_ITEM, q, q)], v.trace, q, q, v.pos);
      RunsWiden(s, h.trace, q, q, v.pos, h.pos);
    }
  }

  /** What a member comes to, given its key. */
  predicate Named(s: string, key: Outcome, o: Outcome)
    requires key.pos <= |s|
  {
    var c := RunEnd(Space, s, key.pos);
    if !key.ok then o == key
    else if c < |s| && s[c] == ':' then o == Then(key, ReadValue(s, RunEnd(Space, s, c + 1)).o)
    else o == Outcome(false, c, key.trace)
  }

  lemma MemberIsNamed(s: string, q: nat)
    requires q < |s| && s[q] == '"'
    ensures Named(s, QuotedRun(s, q, OBJ_ITEM).o, ReadMember(s, q).o)
  {
  }

  lemma {:induction false} MemberTakes(s: string, q: nat)
    requires q <= |s|
    ensures var o := ReadMember(s, q).o; Runs(s, o.trace, q, o.pos)
    decreases |s| - q, 2
  {
    if q < |s| && s[q] == '"' {
      QuotedTakes(s, q, OBJ_ITEM);
      MemberIsNamed(s, q);
      NamedTakes(s, q, QuotedRun(s, q, OBJ_ITEM).o, ReadMember(s, q).o);
    }
  }

  lemma {:induction false} NamedTakes(s: string, q: nat, key: Outcome, o: Outcome)
    requires q < key.pos <= |s| && Runs(s, key.trace, q, key.pos) && Named(s, key, o)
    ensures Runs(s, o.trace, q, o.pos)
    decreases |s| - q, 1
  {
    var c := RunEnd(Space, s, key.pos);
    if key.ok && c < |s| && s[c] == ':' {
      KeyedTakes(s, q, key, RunEnd(Space, s, c + 1));
    } else {
      RunsWiden(s, key.trace, q, q, key.pos, o.pos);
    }
  }

  lemma {:induction false} KeyedTakes(s: string, q: nat, key: Outcome, b: nat)
    requires q < key.pos <= b <= |s| && Runs(s, key.trace, q, key.pos)
    ensures var v := ReadValue(s, b).o; Runs(s, key.trace + v.trace, q, v.pos)
    decreases |s| - q, 0
  {
    ValueTakes(s, b);
    RunsWiden(s, key.trace, q, q, key.pos, b);
    RunsJoin(s, key.trace, ReadValue(s, b).o.trace, q, b, ReadValue(s, b).o.pos);
  }

  lemma {:induction false} ItemsTake(s: string, q: nat)
    requires q <= |s|
    ensures var o := ReadItems(s, q).o; Runs(s, o.trace, q, o.pos)
    decreases |s| - q, 3
  {
    var h := ReadItem(s, q).o;
    ItemTakes(s, q);
    if GoesOn(s, h) {
      var n := Next(s, h.pos);
      ItemsTake(s, n);
      RunsWiden(s, h.trace, q, q, h.pos, n);
      RunsJoin(s, h.trace, ReadItems(s, n).o.trace, q, n, ReadItems(s, n).o.pos);
    }
  }

  lemma {:induction false} MembersTake(s: string, q: nat)
    requires q <= |s|
    ensures var o := ReadMembers(s, q).o; Runs(s, o.trace, q, o.pos)
    decreases |s| - q, 3
  {
    var h := ReadMember(s, q).o;
    MemberTakes(s, q);
    if GoesOn(s, h) {
      var n := Next(s, h.pos);
      MembersTake(s, n);
      RunsWiden(s, h.trace, q, q, h.pos, n);
      RunsJoin(s, h.trace, ReadMembers(s, n).o.trace, q, n, ReadMembers(s, n).o.pos);
    }
  }

  // ---- three weights of a string ----

  /** How many of its characters are not printable. */
  function Odd(x: string): nat
  {
    if x == "" then 0 else (if IsPrint(x[0]) then 0 else 1) + Odd(x[1..])
  }

  /** Every escape in it is one of those the grammar knows, or a `\\u`. */
  predicate Steady(x: string)
  {
    if x == "" then true
    else if x[0] != '\\' then Steady(x[1..])
    else |x| > 1 && (x[1] in ESCAPED || x[1] == 'u') && Steady(x[2..])
  }

  function Unsteady(x: string): nat { if Steady(x + "\"") then 0 else 1 }

  function Misspelled(x: string): nat { if WellSpelled(x) then 0 else 1 }

  lemma {:induction false} OddAppends(a: string, b: string)
    ensures Odd(a + b) == Odd(a) + Odd(b)
  {
    if a == "" {
      assert a + b == b;
    } else {
      assert (a + b)[1..] == a[1..] + b;
      OddAppends(a[1..], b);
    }
  }

  lemma {:induction false} NoneOdd(x: string)
    ensures Odd(x) == 0 <==> AllPrint(x)
  {
    if x != "" {
      assert x == [x[0]] + x[1..];
      NoneOdd(x[1..]);
    }
  }

  lemma {:induction false} SteadyAppends(a: string, b: string)
    requires Steady(a) && Steady(b)
    ensures Steady(a + b)
    decreases |a|
  {
    if a == "" {
      assert a + b == b;
    } else {
      var n := if a[0] == '\\' then 2 else 1;
      assert (a + b)[n..] == a[n..] + b;
      SteadyAppends(a[n..], b);
    }
  }

  lemma {:induction false} PlainIsSteady(x: string)
    requires '\\' !in x
    ensures Steady(x)
  {
    if x != "" { PlainIsSteady(x[1..]); }
  }

  // ---- what the runs weigh ----

  lemma OddSplits(s: string, p: nat, from: nat, to: nat, q: nat)
    requires p <= from <= to <= q <= |s|
    ensures Odd(s[from..to]) + Odd(s[to..q]) <= Odd(s[p..q])
  {
    var x, y, z := s[p..from], s[from..to], s[to..q];
    assert s[p..q] == x + (y + z);
    OddAppends(x, y + z);
    OddAppends(y, z);
  }

  lemma CallWeighs(s: string, e: Engine.Event, w: string -> nat)
    requires Takes(e) ==> e.from <= e.to <= |s|
    ensures EventWeight(Action(s, e), w) == if Takes(e) then w(s[e.from..e.to]) else 0
  {
  }

  lemma FirstWeighs(s: string, t: seq<Engine.Event>, w: string -> nat)
    requires t != []
    ensures EventsWeight(Actions(s, t), w) == EventWeight(Action(s, t[0]), w) + EventsWeight(Actions(s, t[1..]), w)
  {
    assert Actions(s, t)[0] == Action(s, t[0]) && Actions(s, t)[1..] == Actions(s, t[1..]);
  }

  /** One after another, the runs have no more of such characters than the text has. */
  lemma {:induction false} RunsWeighOdd(s: string, t: seq<Engine.Event>, p: nat, q: nat)
    requires p <= |s| && Runs(s, t, p, q) && q <= |s|
    ensures p <= q && EventsWeight(Actions(s, t), Odd) <= Odd(s[p..q])
    decreases t
  {
    if t != [] {
      var to := if Takes(t[0]) then t[0].to else p;
      RunsWeighOdd(s, t[1..], to, q);
      FirstWeighs(s, t, Odd);
      CallWeighs(s, t[0], Odd);
      if Takes(t[0]) { OddSplits(s, p, t[0].from, to, q); }
    }
  }

  /** A run stops before an escape that the grammar does not know, so it has none. */
  lemma {:induction false} RunIsSteady(s: string, p: nat)
    requires p <= |s|
    ensures Steady(s[p..Scan(s, p)] + "\"")
    decreases |s| - p
  {
    var e := Scan(s, p);
    var x := s[p..e];
    if p < e {
      if s[p] != '\\' {
        RunIsSteady(s, p + 1);
        assert (x + "\"")[1..] == s[p + 1..e] + "\"";
      } else if p + 1 < |s| && s[p + 1] in ESCAPED {
        RunIsSteady(s, p + 2);
        assert (x + "\"")[2..] == s[p + 2..e] + "\"";
      } else if p + 1 < |s| && s[p + 1] == 'u' && FourHex(s, p + 2) {
        RunIsSteady(s, p + 6);
        CodeIsSteady(s, p, e);
      } else {
        assert x == "\\u" || x == "\\";
        ShortIsSteady();
      }
    }
  }

  lemma ShortIsSteady()
    ensures Steady("\\u" + "\"") && Steady("\\" + "\"")
  {
    var a, b := "\\u" + "\"", "\\" + "\"";
    assert a[2..] == "\"" && b[2..] == "";
  }

  lemma CodeIsSteady(s: string, p: nat, e: nat)
    requires p + 6 <= e <= |s| && s[p] == '\\' && s[p + 1] == 'u' && FourHex(s, p + 2)
    requires Steady(s[p + 6..e] + "\"")
    ensures Steady(s[p..e] + "\"")
  {
    var code := s[p..p + 6];
    assert s[p..e] + "\"" == code + (s[p + 6..e] + "\"");
    PlainIsSteady(code[2..]);
    SteadyAppends(code, s[p + 6..e] + "\"");
  }

  /** When no run after a quote weighs anything, the strings and keys that are read weigh nothing. */
  lemma {:induction false} RunsWeighNothing(s: string, t: seq<Engine.Event>, p: nat, q: nat, w: string -> nat)
    requires p <= |s| && Runs(s, t, p, q)
    requires forall k :: 0 < k <= |s| && s[k - 1] == '"' ==> w(s[k..Scan(s, k)]) == 0
    ensures EventsWeight(Actions(s, t), w) == 0
    decreases t
  {
    if t != [] {
      RunsWeighNothing(s, t[1..], if Takes(t[0]) then t[0].to else p, q, w);
      FirstWeighs(s, t, w);
      CallWeighs(s, t[0], w);
    }
  }

  lemma {:induction false} SteadyFrom(s: string, p: nat, k: nat)
    requires p < k <= |s| && s[k - 1] == '"' && Steady(s[p..])
    ensures Steady(s[k..])
    decreases k - p
  {
    var n := if s[p] == '\\' then 2 else 1;
    assert s[p..][n..] == s[p + n..];
    if p + n < k { SteadyFrom(s, p + n, k); }
  }

  /** Where every escape is known, the only incomplete one that a run can end in is a bare `\\u`. */
  lemma {:induction false} SteadyRunIsSpelled(s: string, p: nat)
    requires p <= |s| && Steady(s[p..])
    ensures WellSpelled(s[p..Scan(s, p)])
    decreases |s| - p
  {
    var e := Scan(s, p);
    var x := s[p..e];
    if p < e {
      if s[p] != '\\' {
        assert s[p..][1..] == s[p + 1..] && x[1..] == s[p + 1..e];
        SteadyRunIsSpelled(s, p + 1);
      } else {
        assert s[p..][2..] == s[p + 2..];
        if s[p + 1] in ESCAPED {
          SteadyRunIsSpelled(s, p + 2);
          assert x[2..] == s[p + 2..e];
        } else if FourHex(s, p + 2) {
          SteadyAfterCode(s, p + 2);
          SteadyRunIsSpelled(s, p + 6);
          assert x[6..] == s[p + 6..e];
          assert FourHex(x, 2) by { assert forall i :: 2 <= i < 6 ==> x[i] == s[p + i]; }
        } else {
          assert x == "\\u";
        }
      }
    }
  }

  lemma {:induction false} SteadyAfterPlain(a: string, b: string)
    requires '\\' !in a && Steady(a + b)
    ensures Steady(b)
  {
    if a == "" {
      assert a + b == b;
    } else {
      assert (a + b)[1..] == a[1..] + b && a[0] in a;
      SteadyAfterPlain(a[1..], b);
    }
  }

  lemma SteadyAfterCode(s: string, p: nat)
    requires p <= |s| && FourHex(s, p) && Steady(s[p..])
    ensures Steady(s[p + 4..])
  {
    assert s[p..] == s[p..p + 4] + s[p + 4..];
    SteadyAfterPlain(s[p..p + 4], s[p + 4..]);
  }

  // ---- printed values ----

  /** Every string in a value is printable. */
  predicate Printed(v: Value)
  {
    match v
    case String(x) => AllPrint(x)
    case Array(items) => PrintedItems(items)
    case Object(members) => PrintedMembers(members)
    case _ => true
  }

  predicate PrintedItems(items: seq<Value>)
  {
    items == [] || (Printed(items[0]) && PrintedItems(items[1..]))
  }

  predicate PrintedMembers(members: seq<Member>)
  {
    members == [] || (Printed(members[0].value) && PrintedMembers(members[1..]))
  }

  lemma {:induction false} HexPrints(n: nat)
    ensures Odd(Hex(n)) == 0
  {
    if n >= 16 {
      HexPrints(n / 16);
      OddAppends(Hex(n / 16), [DigitChar(n % 16)]);
    }
  }

  lemma {:induction false} DecimalPrints(n: int)
    ensures Odd(Decimal(n)) == 0
    decreases n < 0, if n < 0 then -n else n
  {
    if n < 0 {
      DecimalPrints(-n);
      OddAppends("-", Decimal(-n));
    } else if n >= 10 {
      DecimalPrints(n / 10);
      OddAppends(Decimal(n / 10), [DigitChar(n % 10)]);
    }
  }

  lemma PiecePrints(ch: char, unicode: bool)
    ensures Odd(Piece(ch, unicode)) == 0
  {
    var n := ch as nat;
    var h := Hex(if n < 128 then n else 0xffffff00 + n);
    HexPrints(if n < 128 then n else 0xffffff00 + n);
    OddAppends("0", h);
    OddAppends("\\u", if |h| < 2 then "0" + h else h);
    NoneOdd(Piece(ch, unicode));
  }

  lemma {:induction false} EscapedPrints(x: string, unicode: bool)
    ensures Odd(Escaped(x, unicode)) == 0
  {
    if x != "" {
      PiecePrints(x[0], unicode);
      EscapedPrints(x[1..], unicode || Coded(x[0]));
      OddAppends(Piece(x[0], unicode), Escaped(x[1..], unicode || Coded(x[0])));
    }
  }

  lemma WordPrints(v: Value)
    requires v.Nil? || v.Null? || v.Bool? || v.Int?
    ensures Odd(Text(v)) == 0
  {
    if v.Int? { DecimalPrints(v.i); } else { NoneOdd(Text(v)); }
  }

  lemma OddBetween(a: string, x: string, b: string)
    requires Odd(a) == 0 && Odd(b) == 0
    ensures Odd(a + x + b) == Odd(x)
  {
    OddAppends(a, x);
    OddAppends(a + x, b);
  }

  /** A printed value has as many unprintable characters as its keys have. */
  lemma {:induction false} TextIsOdd(v: Value)
    requires HasText(v)
    ensures Odd(Text(v)) <= Weight(v, Odd)
    ensures Odd(Text(v)) == Weight(v, Odd) ==> Printed(v)
    decreases v
  {
    match v
    case String(x) =>
      EscapedPrints(x, false);
      OddBetween("\"", Escaped(x, false), "\"");
      NoneOdd(x);
    case Array(items) =>
      ItemsAreOdd(items);
      OddBetween("[", ItemsText(items), "]");
    case Object(members) =>
      MembersAreOdd(members);
      OddBetween("{", MembersText(members), "}");
    case _ => WordPrints(v);
  }

  lemma {:induction false} ItemsAreOdd(items: seq<Value>)
    requires ItemsHaveText(items)
    ensures Odd(ItemsText(items)) <= ItemsWeight(items, Odd)
    ensures Odd(ItemsText(items)) == ItemsWeight(items, Odd) ==> PrintedItems(items)
    decreases items
  {
    if items != [] {
      var rest := items[1..];
      TextIsOdd(items[0]);
      ItemsAreOdd(rest);
      OddAppends(Text(items[0]), MoreItemsText(rest));
      if rest != [] {
        assert MoreItemsText(rest) == "," + ItemsText(rest);
        OddAppends(",", ItemsText(rest));
      }
    }
  }

  lemma {:induction false} MembersAreOdd(members: seq<Member>)
    requires MembersHaveText(members)
    ensures Odd(MembersText(members)) <= MembersWeight(members, Odd)
    ensures Odd(MembersText(members)) == MembersWeight(members, Odd) ==> PrintedMembers(members)
    decreases members
  {
    if members != [] {
      var m, rest := members[0], members[1..];
      TextIsOdd(m.value);
      MembersAreOdd(rest);
      MemberIsOdd(m);
      OddAppends(MemberText(m), MoreMembersText(rest));
      if rest != [] {
        assert MoreMembersText(rest) == "," + MembersText(rest);
        OddAppends(",", MembersText(rest));
      }
    }
  }

  lemma MemberIsOdd(m: Member)
    ensures Odd(MemberText(m)) == Odd(m.key) + Odd(Text(m.value))
  {
    OddBetween("\"", m.key, "\":");
    assert "\"" + m.key + "\":" == ("\"" + m.key) + "\":";
    OddAppends("\"" + m.key + "\":", Text(m.value));
  }

  lemma WordIsSteady(v: Value)
    requires v.Nil? || v.Null? || v.Bool? || v.Int?
    ensures Steady(Text(v))
  {
    if v.Int? {
      DecimalDigits(if v.i < 0 then -v.i else v.i);
      assert v.i < 0 ==> Text(v) == "-" + Decimal(-v.i);
    }
    PlainIsSteady(Text(v));
  }

  lemma QuotedIsSteady(x: string)
    requires Unsteady(x) == 0
    ensures Steady("\"" + x + "\"")
  {
    assert "\"" + x + "\"" == "\"" + (x + "\"");
    SteadyAppends("\"", x + "\"");
  }

  lemma SteadyBetween(a: string, x: string, b: string)
    requires Steady(a) && Steady(x) && Steady(b)
    ensures Steady(a + x + b)
  {
    SteadyAppends(a, x);
    SteadyAppends(a + x, b);
  }

  lemma {:induction false} TextIsSteady(v: Value)
    requires HasText(v) && Printed(v) && Weight(v, Unsteady) == 0
    ensures Steady(Text(v))
    decreases v
  {
    match v
    case String(x) =>
      EscapedKeepsPrintable(x);
      QuotedIsSteady(x);
    case Array(items) =>
      ItemsAreSteady(items);
      SteadyBetween("[", ItemsText(items), "]");
    case Object(members) =>
      MembersAreSteady(members);
      SteadyBetween("{", MembersText(members), "}");
    case _ => WordIsSteady(v);
  }

  lemma {:induction false} ItemsAreSteady(items: seq<Value>)
    requires ItemsHaveText(items) && PrintedItems(items) && ItemsWeight(items, Unsteady) == 0
    ensures Steady(ItemsText(items))
    decreases items
  {
    if items != [] {
      var rest := items[1..];
      TextIsSteady(items[0]);
      ItemsAreSteady(rest);
      if rest != [] {
        assert MoreItemsText(rest) == "," + ItemsText(rest);
        SteadyAppends(",", ItemsText(rest));
      }
      SteadyAppends(Text(items[0]), MoreItemsText(rest));
    }
  }

  lemma {:induction false} MembersAreSteady(members: seq<Member>)
    requires MembersHaveText(members) && PrintedMembers(members) && MembersWeight(members, Unsteady) == 0
    ensures Steady(MembersText(members))
    decreases members
  {
    if members != [] {
      var m, rest := members[0], members[1..];
      TextIsSteady(m.value);
      MemberIsSteady(m);
      MembersAreSteady(rest);
      if rest != [] {
        assert MoreMembersText(rest) == "," + MembersText(rest);
        SteadyAppends(",", MembersText(rest));
      }
      SteadyAppends(MemberText(m), MoreMembersText(rest));
    }
  }

  lemma MemberIsSteady(m: Member)
    requires Unsteady(m.key) == 0 && Steady(Text(m.value))
    ensures Steady(MemberText(m))
  {
    QuotedIsSteady(m.key);
    assert MemberText(m) == ("\"" + m.key + "\"") + ":" + Text(m.value);
    SteadyBetween("\"" + m.key + "\"", ":", Text(m.value));
  }

  lemma {:induction false} SpelledByWeight(v: Value)
    requires HasText(v) && Printed(v) && Weight(v, Misspelled) == 0
    ensures Spelled(v)
    decreases v
  {
    match v
    case Array(items) => ItemsByWeight(items);
    case Object(members) => MembersByWeight(members);
    case _ =>
  }

  lemma {:induction false} ItemsByWeight(items: seq<Value>)
    requires ItemsHaveText(items) && PrintedItems(items) && ItemsWeight(items, Misspelled) == 0
    ensures SpelledItems(items)
    decreases items
  {
    if items != [] {
      SpelledByWeight(items[0]);
      ItemsByWeight(items[1..]);
    }
  }

  lemma {:induction false} MembersByWeight(members: seq<Member>)
    requires MembersHaveText(members) && PrintedMembers(members) && MembersWeight(members, Misspelled) == 0
    ensures SpelledMembers(members)
    decreases members
  {
    if members != [] {
      SpelledByWeight(members[0].value);
      MembersByWeight(members[1..]);
    }
  }

  // ---- what comes back is canonical ----

  lemma {:induction false} StoredIsCanonical(v: Value)
    ensures Canonical(Stored(v))
    decreases v
  {
    match v
    case Array(items) => StoredItemsCanonical(items);
    case Object(members) => StoredMembersCanonical([], members);
    case _ =>
  }

  lemma {:induction false} StoredItemsCanonical(items: seq<Value>)
    ensures forall x :: x in StoredItems(items) ==> Canonical(x)
    decreases items
  {
    if items != [] {
      StoredIsCanonical(items[0]);
      StoredItemsCanonical(items[1..]);
    }
  }

  lemma {:induction false} StoredMembersCanonical(done: seq<Member>, members: seq<Member>)
    requires Canonical(Object(done))
    ensures Canonical(Object(StoredMembers(done, members)))
    decreases members
  {
    if members != [] {
      var k, v := members[0].key, Stored(members[0].value);
      StoredIsCanonical(members[0].value);
      InsertIsMapUpdate(done, k, v, k);
      InsertMembers(done, k, v);
      StoredMembersCanonical(Insert(done, k, v), members[1..]);
    }
  }

  // ---- the round trip ----

  /** The strings and keys of a value that parsing has returned weigh no more than the text's actions. */
  lemma ReturnedWeighs(g: Grammar, s: string, v: Value, w: string -> nat)
    requires JReady(g) && Parse(s, 0).0 == Returned(v) && v != Nil
    ensures Weight(v, w) <= EventsWeight(Actions(s, Eval(g, DOCUMENT, s, 0).trace), w)
  {
    var h := ParseIs(s, 0);
    RunsAdd(Start(), Actions(s, Eval(g, DOCUMENT, s, 0).trace), w);
  }

  lemma DocumentTakes(g: Grammar, s: string) returns (p: nat, q: nat)
    requires Ready(g)
    ensures p <= q <= |s| && Runs(s, Eval(g, DOCUMENT, s, 0).trace, p, q)
  {
    p := RunEnd(Space, s, 0);
    DocumentRuns(g, s, 0);
    ValueIs(g, s, p);
    ValueTakes(s, p);
    q := ReadValue(s, p).o.pos;
  }

  /** A value that comes back from its text has no unprintable characters in its strings. */
  lemma ReturnedIsPrinted(v: Value)
    requires HasText(v) && v != Nil && Parse(Text(v), 0).0 == Returned(v)
    ensures Printed(v)
  {
    var s := Text(v);
    var g := ParseIs(s, 0);
    var p, q := DocumentTakes(g, s);
    RunsWeighOdd(s, Eval(g, DOCUMENT, s, 0).trace, p, q);
    ReturnedWeighs(g, s, v, Odd);
    OddSplits(s, 0, p, q, |s|);
    assert s[0..|s|] == s;
    TextIsOdd(v);
  }

  lemma ReturnedWeighsNothing(v: Value, w: string -> nat)
    requires v != Nil && Parse(Text(v), 0).0 == Returned(v)
    requires var s := Text(v); forall k :: 0 < k <= |s| && s[k - 1] == '"' ==> w(s[k..Scan(s, k)]) == 0
    ensures Weight(v, w) == 0
  {
    var s := Text(v);
    var g := ParseIs(s, 0);
    var p, q := DocumentTakes(g, s);
    RunsWeighNothing(s, Eval(g, DOCUMENT, s, 0).trace, p, q, w);
    ReturnedWeighs(g, s, v, w);
  }

  /** Such a value is made of runs of its own text, in which every escape is then known. */
  lemma ReturnedIsSpelled(v: Value)
    requires HasText(v) && v != Nil && Parse(Text(v), 0).0 == Returned(v)
    ensures Spelled(v)
  {
    var s := Text(v);
    ReturnedIsPrinted(v);
    forall k | 0 < k <= |s| && s[k - 1] == '"' ensures Unsteady(s[k..Scan(s, k)]) == 0 { RunIsSteady(s, k); }
    ReturnedWeighsNothing(v, Unsteady);
    TextIsSteady(v);
    assert s[0..] == s;
    forall k | 0 < k <= |s| && s[k - 1] == '"' ensures Misspelled(s[k..Scan(s, k)]) == 0 {
      SteadyFrom(s, 0, k);
      SteadyRunIsSpelled(s, k);
    }
    ReturnedWeighsNothing(v, Misspelled);
    SpelledByWeight(v);
  }

  /** Round trip: a value comes back from its text if and only if its strings are printable and well
      spelled, its keys are well spelled, its numbers fit, and it is what a map-based tree without null
      pointers can hold. Then all of the text is consumed. */
  lemma RoundTripsExactly(v: Value)
    requires HasText(v)
    ensures Parse(Text(v), 0).0 == Returned(v) <==> Faithful(v) && Canonical(v)
    ensures Faithful(v) && Canonical(v) ==> Parse(Text(v), 0).1 == |Text(v)|
  {
    if Spelled(v) {
      SpelledRoundTrip(v);
      StoredIsCanonical(v);
      if Canonical(v) { CanonicalIsStored(v); }
    } else if Parse(Text(v), 0).0 == Returned(v) {
      ReturnedIsSpelled(v);
    }
  }
}
