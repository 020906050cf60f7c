/** Values as people and other programs write them: with white space wherever the code allows it, and
    with the comma that it allows after the last element. */
module JsonLayout {
  import opened Grammars
  import opened Engine
  import opened EngineLaws
  import opened JsonGrammar
  import opened JsonMatching
  import opened Json
  import opened Builder
  import opened JsonParse
  import opened JsonRoundTrip
  import opened JsonTheorems
  import opened JsonReader
  import opened JsonConverse

  /** One way of writing a value. A `Printed` one is as the printer has it; in the others every gap is
      white space. `comma`: there is one more comma at the end, when there is an element at all. */
  datatype Layout =
    | Printed(v: Value)
    | Row(lead: string, cells: seq<Cell>, comma: bool)
    | Table(lead: string, entries: seq<Entry>, comma: bool, end: string)

  /** An element of an array, white space after it, and after the comma that may follow. */
  datatype Cell = Cell(item: Layout, after: string, next: string)

  /** A member of an object: white space before and after the colon, and after the comma that may
      follow. There is none before that comma. */
  datatype Entry = Entry(key: string, colon: string, lead: string, item: Layout, next: string)

  /** The text. */
  function LaidOut(l: Layout): string
  {
    match l
    case Printed(v) => Text(v)
    case Row(lead, cells, comma) => "[" + lead + CellsText(cells, comma) + "]"
    case Table(lead, entries, comma, end) => "{" + lead + EntriesText(entries, comma) + end + "}"
  }

  function CellsText(cells: seq<Cell>, comma: bool): string
  {
    if cells == [] then "" else
    LaidOut(cells[0].item) + cells[0].after +
      if |cells| > 1 || comma then "," + cells[0].next + CellsText(cells[1..], comma) else ""
  }

  function EntriesText(entries: seq<Entry>, comma: bool): string
  {
    if entries == [] then "" else
    HeadText(entries[0]) + LaidOut(entries[0].item) +
      if |entries| > 1 || comma then "," + entries[0].next + EntriesText(entries[1..], comma) else ""
  }

  function HeadText(e: Entry): string { "\"" + e.key + "\"" + e.colon + ":" + e.lead }

  /** The value that is written. */
  function ValueOf(l: Layout): Value
  {
    match l
    case Printed(v) => v
    case Row(_, cells, _) => Array(CellValues(cells))
    case Table(_, entries, _, _) => Object(EntryMembers(entries))
  }

  function CellValues(cells: seq<Cell>): seq<Value>
  {
    if cells == [] then [] else [ValueOf(cells[0].item)] + CellValues(cells[1..])
  }

  function EntryMembers(entries: seq<Entry>): seq<Member>
  {
    if entries == [] then []
    else [Member(entries[0].key, ValueOf(entries[0].item))] + EntryMembers(entries[1..])
  }

  /** The gaps are white space, and strings and keys are well spelled. */
  predicate Neat(l: Layout)
  {
    match l
    case Printed(v) => Spelled(v)
    case Row(lead, cells, _) => IsGap(lead) && NeatCells(cells)
    case Table(lead, entries, _, end) => IsGap(lead) && IsGap(end) && NeatEntries(entries)
  }

  predicate NeatCells(cells: seq<Cell>)
  {
    cells == [] ||
    (Neat(cells[0].item) && IsGap(cells[0].after) && IsGap(cells[0].next) && NeatCells(cells[1..]))
  }

  predicate NeatEntries(entries: seq<Entry>)
  {
    entries == [] ||
    (NeatEntry(entries[0]) && NeatEntries(entries[1..]))
  }

  predicate NeatEntry(e: Entry)
  {
    WellSpelled(e.key) && Neat(e.item) && IsGap(e.colon) && IsGap(e.lead) && IsGap(e.next)
  }

  // ---- where the parts of a text are ----

  lemma Solid(ch: char)
    requires Leads(ch) || ch == ']' || ch == '}' || ch == ',' || ch == ':' || ch == '"'
    ensures !IsWhite(ch)
  {
    SpaceIsWhite(ch);
  }

  lemma LayoutLeads(l: Layout)
    requires Neat(l)
    ensures LaidOut(l) != "" && Leads(LaidOut(l)[0])
  {
    if l.Printed? { TextLeads(l.v); }
  }

  lemma CharThere(s: string, p: nat, c: char, rest: string)
    requires p <= |s| && HasAt(s, p, [c] + rest)
    ensures p < |s| && s[p] == c && HasAt(s, p + 1, rest)
  {
    SplitAt(s, p, [c], rest);
    FirstAt(s, p, [c]);
  }

  /** White space, and then something solid. */
  lemma GapThere(s: string, p: nat, gap: string, rest: string)
    requires p <= |s| && HasAt(s, p, gap + rest) && IsGap(gap) && rest != "" && !IsWhite(rest[0])
    ensures p + |gap| < |s| && s[p + |gap|] == rest[0] && HasAt(s, p + |gap|, rest)
    ensures RunEnd(Space, s, p) == p + |gap|
  {
    SplitAt(s, p, gap, rest);
    FirstAt(s, p + |gap|, rest);
    GapRun(s, p, gap);
  }

  /** An opening bracket, white space, and something solid. */
  lemma OpenThere(s: string, p: nat, c: char, lead: string, more: string) returns (q: nat)
    requires p <= |s| && HasAt(s, p, [c] + (lead + more)) && IsGap(lead) && more != "" && !IsWhite(more[0])
    ensures q == p + 1 + |lead| <= |s| && p < |s| && s[p] == c && RunEnd(Space, s, p + 1) == q && HasAt(s, q, more)
  {
    CharThere(s, p, c, lead + more);
    GapThere(s, p + 1, lead, more);
    q := p + 1 + |lead|;
  }

  // ---- the elements of an array in a text ----

  /** A value written from `q` to `w`, with white space after it up to `x`. */
  predicate CellLaid(c: Cell, s: string, q: nat, w: nat, x: nat)
  {
    && q < |s| && s[q] != ']' && HasAt(s, q, LaidOut(c.item)) && w == q + |LaidOut(c.item)| <= |s|
    && NumberEnds(s, w) && RunEnd(Space, s, w) == x < |s|
  }

  /** Elements from `q` on, and the bracket after them at `n`. */
  predicate CellsLaid(cells: seq<Cell>, comma: bool, s: string, q: nat, n: nat)
    decreases cells, 1
  {
    if cells == [] then q == n < |s| && s[n] == ']' else
    var w := q + |LaidOut(cells[0].item)|;
    var x := w + |cells[0].after|;
    CellLaid(cells[0], s, q, w, x) && MoreLaid(cells[0].next, cells[1..], comma, s, x, n)
  }

  /** A comma with white space and more elements, or the bracket. */
  predicate MoreLaid(next: string, rest: seq<Cell>, comma: bool, s: string, x: nat, n: nat)
    decreases rest, 2
  {
    if rest == [] && !comma then x == n < |s| && s[n] == ']' else
    var y := x + 1 + |next|;
    x < |s| && s[x] == ',' && y <= |s| && Next(s, x) == y && CellsLaid(rest, comma, s, y, n)
  }

  lemma CellsAppend(item: string, after: string, next: string, text: string)
    ensures (item + after + ("," + next + text)) + "]" == item + (after + ([','] + (next + (text + "]"))))
    ensures (item + after + "") + "]" == item + (after + "]")
  {
  }

  lemma CellThere(c: Cell, item: string, s: string, q: nat, body: string) returns (w: nat, x: nat)
    requires q <= |s| && item == LaidOut(c.item) && Neat(c.item) && IsGap(c.after)
    requires HasAt(s, q, item + (c.after + body))
    requires body != "" && (body[0] == ',' || body[0] == ']')
    ensures w == q + |item| && x == w + |c.after| && CellLaid(c, s, q, w, x) && HasAt(s, x, body)
  {
    LayoutLeads(c.item);
    SplitAt(s, q, item, c.after + body);
    FirstAt(s, q, item);
    Solid(body[0]);
    w := q + |item|;
    x := w + |c.after|;
    GapThere(s, w, c.after, body);
    AfterCell(s, w, c.after, body);
  }

  lemma CommaThere(s: string, x: nat, next: string, more: string) returns (y: nat)
    requires x <= |s| && HasAt(s, x, [','] + (next + more)) && IsGap(next) && more != "" && !IsWhite(more[0])
    ensures y == x + 1 + |next| <= |s| && x < |s| && s[x] == ',' && Next(s, x) == y && HasAt(s, y, more)
  {
    CharThere(s, x, ',', next + more);
    GapThere(s, x + 1, next, more);
    y := x + 1 + |next|;
  }

  /** No digit, dot or exponent follows an element. */
  lemma AfterCell(s: string, w: nat, gap: string, body: string)
    requires w <= |s| && HasAt(s, w, gap + body) && IsGap(gap) && body != "" && (body[0] == ',' || body[0] == ']')
    ensures NumberEnds(s, w)
  {
    FirstAt(s, w, gap + body);
    if gap != "" { assert gap[0] in gap; }
  }

  lemma CellsLead(cells: seq<Cell>, comma: bool)
    requires NeatCells(cells)
    ensures var t := CellsText(cells, comma) + "]"; t != "" && !IsWhite(t[0])
  {
    if cells != [] {
      LayoutLeads(cells[0].item);
      Solid(LaidOut(cells[0].item)[0]);
    }
  }

  /** What is written after an element and its white space. */
  function MoreText(next: string, rest: seq<Cell>, comma: bool): string
  {
    if rest == [] && !comma then "]" else [','] + (next + (CellsText(rest, comma) + "]"))
  }

  lemma CellsSplit(cells: seq<Cell>, comma: bool)
    requires cells != []
    ensures var c := cells[0];
      CellsText(cells, comma) + "]" == LaidOut(c.item) + (c.after + MoreText(c.next, cells[1..], comma))
  {
    var c := cells[0];
    CellsAppend(LaidOut(c.item), c.after, c.next, CellsText(cells[1..], comma));
  }

  lemma MoreStarts(next: string, rest: seq<Cell>, comma: bool)
    ensures var t := MoreText(next, rest, comma); t != "" && (t[0] == ',' || t[0] == ']')
  {
  }

  lemma {:induction false} CellsAreLaid(cells: seq<Cell>, comma: bool, text: string, s: string, q: nat, n: nat)
    requires q <= |s| && NeatCells(cells) && text == CellsText(cells, comma) + "]" && HasAt(s, q, text)
    requires n == q + |text| - 1
    ensures CellsLaid(cells, comma, s, q, n)
    decreases cells, 1
  {
    if cells == [] {
      assert text == "]";
      FirstAt(s, q, text);
    } else {
      var c, more := cells[0], MoreText(cells[0].next, cells[1..], comma);
      CellsSplit(cells, comma);
      MoreStarts(c.next, cells[1..], comma);
      var w, x := CellThere(c, LaidOut(c.item), s, q, more);
      MoreIsLaid(c.next, cells[1..], comma, more, s, x, n);
    }
  }

  lemma {:induction false} MoreIsLaid(next: string, rest: seq<Cell>, comma: bool, text: string, s: string, x: nat,
                                      n: nat)
    requires x <= |s| && NeatCells(rest) && IsGap(next) && text == MoreText(next, rest, comma) && HasAt(s, x, text)
    requires n == x + |text| - 1
    ensures MoreLaid(next, rest, comma, s, x, n)
    decreases rest, 2
  {
    if rest == [] && !comma {
      FirstAt(s, x, text);
    } else {
      var more := CellsText(rest, comma) + "]";
      CellsLead(rest, comma);
      var y := CommaThere(s, x, next, more);
      CellsAreLaid(rest, comma, more, s, y, n);
    }
  }

  // ---- the members of an object in a text ----

  /** Where the key ends, the colon stands and the value starts. */
  function KeyEnd(e: Entry, q: nat): nat { q + 1 + |e.key| }
  function ColonAt(e: Entry, q: nat): nat { KeyEnd(e, q) + 1 + |e.colon| }
  function ValueAt(e: Entry, q: nat): nat { ColonAt(e, q) + 1 + |e.lead| }

  /** A member from `q` to the end of its value at `w`. */
  predicate EntryLaid(e: Entry, s: string, q: nat, w: nat)
  {
    var end, c, b := KeyEnd(e, q), ColonAt(e, q), ValueAt(e, q);
    && b < |s| && s[q] == '"' && Scan(s, q + 1) == end && s[end] == '"' && s[q + 1..end] == e.key
    && RunEnd(Space, s, end + 1) == c && s[c] == ':' && RunEnd(Space, s, c + 1) == b
    && HasAt(s, b, LaidOut(e.item)) && w == b + |LaidOut(e.item)| <= |s| && NumberEnds(s, w)
  }

  /** Members from `q` on, up to `m`. */
  predicate EntriesLaid(entries: seq<Entry>, comma: bool, s: string, q: nat, m: nat)
    decreases entries, 1
  {
    entries != [] &&
    var w := ValueAt(entries[0], q) + |LaidOut(entries[0].item)|;
    EntryLaid(entries[0], s, q, w) && OthersLaid(entries[0].next, entries[1..], comma, s, w, m)
  }

  /** A comma with white space and more members, or nothing. */
  predicate OthersLaid(next: string, rest: seq<Entry>, comma: bool, s: string, w: nat, m: nat)
    decreases rest, 2
  {
    if rest == [] && !comma then w == m else
    var b := w + 1 + |next|;
    && w < |s| && s[w] == ',' && b <= |s| && RunEnd(Space, s, w + 1) == RunEnd(Space, s, b)
    && if rest == [] then b == m else RunEnd(Space, s, b) == b && EntriesLaid(rest, comma, s, b, m)
  }

  lemma HeadSplits(key: string, colon: string, lead: string, item: string)
    ensures key + colon + ":" + lead + item == key + (colon + ([':'] + (lead + item)))
  {
    assert ":" == [':'];
    Assoc3(key + colon, ":", lead, item);
  }

  lemma Assoc3(a: string, b: string, c: string, d: string)
    ensures a + b + c + d == a + (b + (c + d))
  {
  }

  lemma HeadThere(key: string, colon: string, lead: string, item: string, s: string, q: nat)
    returns (end: nat, c: nat, b: nat)
    requires q <= |s| && HasAt(s, q, ("\"" + key + "\"") + (colon + ([':'] + (lead + item))))
    requires WellSpelled(key) && IsGap(colon) && IsGap(lead) && item != "" && !IsWhite(item[0])
    ensures end == q + 1 + |key| && c == end + 1 + |colon| && b == c + 1 + |lead| < |s|
    ensures s[q] == '"' && Scan(s, q + 1) == end && s[end] == '"' && s[q + 1..end] == key
    ensures RunEnd(Space, s, end + 1) == c && s[c] == ':' && RunEnd(Space, s, c + 1) == b && HasAt(s, b, item)
  {
    var quoted, more := "\"" + key + "\"", colon + ([':'] + (lead + item));
    SplitAt(s, q, quoted, more);
    QuotedText(key, s, q);
    end := q + 1 + |key|;
    c, b := ColonThere(colon, lead, item, s, end + 1);
  }

  lemma ColonThere(colon: string, lead: string, item: string, s: string, d: nat) returns (c: nat, b: nat)
    requires d <= |s| && HasAt(s, d, colon + ([':'] + (lead + item)))
    requires IsGap(colon) && IsGap(lead) && item != "" && !IsWhite(item[0])
    ensures c == d + |colon| && b == c + 1 + |lead| < |s|
    ensures RunEnd(Space, s, d) == c && s[c] == ':' && RunEnd(Space, s, c + 1) == b && HasAt(s, b, item)
  {
    Solid(':');
    GapThere(s, d, colon, [':'] + (lead + item));
    c := d + |colon|;
    CharThere(s, c, ':', lead + item);
    GapThere(s, c + 1, lead, item);
    b := c + 1 + |lead|;
  }

  lemma HeadLength(e: Entry, q: nat)
    ensures q + |HeadText(e)| == ValueAt(e, q)
  {
  }

  lemma EntryText(e: Entry, item: string)
    ensures HeadText(e) + item == ("\"" + e.key + "\"") + (e.colon + ([':'] + (e.lead + item)))
  {
    HeadSplits("\"" + e.key + "\"", e.colon, e.lead, item);
  }

  lemma EntryThere(e: Entry, item: string, s: string, q: nat, w: nat)
    requires q <= |s| && NeatEntry(e) && item == LaidOut(e.item)
    requires HasAt(s, q, ("\"" + e.key + "\"") + (e.colon + ([':'] + (e.lead + item))))
    requires w == ValueAt(e, q) + |item| && w <= |s| && NumberEnds(s, w)
    ensures EntryLaid(e, s, q, w)
  {
    LayoutLeads(e.item);
    Solid(item[0]);
    var end, c, b := HeadThere(e.key, e.colon, e.lead, item, s, q);
  }

  /** Neither a comma nor more of a number. */
  predicate Past(s: string, m: nat)
  {
    m <= |s| && NumberEnds(s, m) && (m < |s| ==> s[m] != ',')
  }

  lemma EntriesAppend(head: string, next: string, text: string)
    ensures head + ("," + next + text) == head + ([','] + (next + text)) && head + "" == head
  {
  }

  lemma CommaBefore(s: string, w: nat, next: string, text: string) returns (b: nat)
    requires w <= |s| && HasAt(s, w, [','] + (next + text)) && IsGap(next)
    ensures b == w + 1 + |next| <= |s| && w < |s| && s[w] == ',' && HasAt(s, b, text)
    ensures RunEnd(Space, s, w + 1) == RunEnd(Space, s, b)
  {
    CharThere(s, w, ',', next + text);
    SplitAt(s, w + 1, next, text);
    GapSkips(s, w + 1, next);
    b := w + 1 + |next|;
  }

  lemma QuoteThere(entries: seq<Entry>, comma: bool, text: string, s: string, q: nat)
    requires entries != [] && text == EntriesText(entries, comma) && q <= |s| && HasAt(s, q, text)
    ensures q < |s| && s[q] == '"' && RunEnd(Space, s, q) == q
  {
    assert text[0] == '"';
    FirstAt(s, q, text);
  }

  /** What is written after a member. */
  function OthersText(next: string, rest: seq<Entry>, comma: bool): string
  {
    if rest == [] && !comma then "" else [','] + (next + EntriesText(rest, comma))
  }

  lemma OthersStart(next: string, rest: seq<Entry>, comma: bool)
    ensures var t := OthersText(next, rest, comma); t != "" ==> t[0] == ','
  {
  }

  lemma EntriesSplit(entries: seq<Entry>, comma: bool)
    requires entries != []
    ensures var e := entries[0];
      EntriesText(entries, comma) == (HeadText(e) + LaidOut(e.item)) + OthersText(e.next, entries[1..], comma)
  {
    var e := entries[0];
    EntriesAppend(HeadText(e) + LaidOut(e.item), e.next, EntriesText(entries[1..], comma));
  }

  lemma {:induction false} EntriesAreLaid(entries: seq<Entry>, comma: bool, text: string, s: string, q: nat, m: nat)
    requires q <= |s| && entries != [] && NeatEntries(entries) && text == EntriesText(entries, comma)
    requires HasAt(s, q, text) && m == q + |text| && Past(s, m)
    ensures EntriesLaid(entries, comma, s, q, m)
    decreases entries, 1
  {
    var e, others := entries[0], OthersText(entries[0].next, entries[1..], comma);
    var head, w := HeadText(e) + LaidOut(e.item), ValueAt(e, q) + |LaidOut(e.item)|;
    EntriesSplit(entries, comma);
    HeadLength(e, q);
    SplitAt(s, q, head, others);
    OthersStart(e.next, entries[1..], comma);
    ValueEnds(s, w, others, m);
    EntryText(e, LaidOut(e.item));
    EntryThere(e, LaidOut(e.item), s, q, w);
    OthersAreLaid(e.next, entries[1..], comma, others, s, w, m);
  }

  lemma ValueEnds(s: string, w: nat, others: string, m: nat)
    requires w <= |s| && HasAt(s, w, others) && m == w + |others| && Past(s, m) && (others != "" ==> others[0] == ',')
    ensures NumberEnds(s, w)
  {
    if others != "" { FirstAt(s, w, others); }
  }

  lemma {:induction false} OthersAreLaid(next: string, rest: seq<Entry>, comma: bool, text: string, s: string, w: nat,
                                         m: nat)
    requires w <= |s| && NeatEntries(rest) && IsGap(next) && text == OthersText(next, rest, comma) && HasAt(s, w, text)
    requires m == w + |text| && Past(s, m)
    ensures OthersLaid(next, rest, comma, s, w, m)
    decreases rest, 2
  {
    if rest != [] || comma {
      var more := EntriesText(rest, comma);
      var b := CommaBefore(s, w, next, more);
      if rest != [] {
        QuoteThere(rest, comma, more, s, b);
        EntriesAreLaid(rest, comma, more, s, b, m);
      }
    }
  }

  // ---- reading ----

  /** Where a value has been read, and what it called for. */
  ghost predicate Came(s: string, p: nat, q: nat, es: seq<Builder.Event>)
    requires p <= |s|
  {
    var o := ReadValue(s, p).o;
    o.ok && o.pos == q && Actions(s, o.trace) == es
  }

  lemma CellReads(s: string, q: nat, w: nat, x: nat, es: seq<Builder.Event>) returns (h: Outcome)
    requires q < |s| && s[q] != ']' && Came(s, q, w, es) && w <= |s| && RunEnd(Space, s, w) == x
    ensures h == ReadItem(s, q).o && h.ok && h.pos == x && Actions(s, h.trace) == [ArrayItem] + es
  {
    var v := ReadValue(s, q).o;
    h := Outcome(true, x, [Fired(ARRAY_ITEM, q, q)] + v.trace);
    ActionsAppend(s, [Fired(ARRAY_ITEM, q, q)], v.trace);
    OneAction(s, Fired(ARRAY_ITEM, q, q));
  }

  lemma CellsGoOn(s: string, q: nat, h: Outcome, y: nat, es: seq<Builder.Event>, rest: seq<Builder.Event>)
    requires q <= |s| && h == ReadItem(s, q).o && h.ok && h.pos < |s| && s[h.pos] == ',' && Next(s, h.pos) == y <= |s|
    requires Actions(s, h.trace) == es && Actions(s, ReadItems(s, y).o.trace) == rest
    ensures ReadItems(s, q).o.pos == ReadItems(s, y).o.pos && Actions(s, ReadItems(s, q).o.trace) == es + rest
  {
    var more := ReadItems(s, y).o;
    assert ReadItems(s, q).o == Outcome(true, more.pos, h.trace + more.trace);
    ActionsAppend(s, h.trace, more.trace);
  }

  lemma CellsEnd(s: string, q: nat, h: Outcome)
    requires q <= |s| && h == ReadItem(s, q).o && h.pos < |s| && s[h.pos] != ','
    ensures ReadItems(s, q).o == Outcome(true, h.pos, h.trace)
  {
  }

  lemma NoCell(s: string, n: nat)
    requires n < |s| && s[n] == ']'
    ensures ReadItems(s, n).o == Yes(n) && RunEnd(Space, s, n) == n
  {
  }

  lemma FirstCell(cells: seq<Cell>)
    requires cells != []
    ensures ItemEvents(CellValues(cells))
      == ([ArrayItem] + Events(ValueOf(cells[0].item))) + ItemEvents(CellValues(cells[1..]))
  {
    assert CellValues(cells)[0] == ValueOf(cells[0].item) && CellValues(cells)[1..] == CellValues(cells[1..]);
  }

  lemma {:induction false} CellsRead(g: Grammar, cells: seq<Cell>, comma: bool, s: string, q: nat, n: nat)
    requires Ready(g) && q <= |s| && NeatCells(cells) && CellsLaid(cells, comma, s, q, n)
    ensures ListRead(s, ReadItems(s, q).o, n, ']', ItemEvents(CellValues(cells)))
    decreases cells, 1
  {
    if cells == [] {
      NoCell(s, q);
    } else {
      var c, es := cells[0], Events(ValueOf(cells[0].item));
      var w, x := FirstIsLaid(cells, comma, s, q, n);
      LayoutReads(g, c.item, s, q);
      var h := CellReads(s, q, w, x, es);
      MoreReads(g, c.next, cells[1..], comma, s, q, h, n, [ArrayItem] + es);
      FirstCell(cells);
    }
  }

  lemma FirstIsLaid(cells: seq<Cell>, comma: bool, s: string, q: nat, n: nat) returns (w: nat, x: nat)
    requires cells != [] && NeatCells(cells) && CellsLaid(cells, comma, s, q, n)
    ensures Neat(cells[0].item) && w == q + |LaidOut(cells[0].item)| && CellLaid(cells[0], s, q, w, x)
    ensures NeatCells(cells[1..]) && MoreLaid(cells[0].next, cells[1..], comma, s, x, n)
  {
    w := q + |LaidOut(cells[0].item)|;
    x := w + |cells[0].after|;
  }

  /** A list has been read up to white space before the bracket at `n`. */
  ghost predicate ListRead(s: string, o: Outcome, n: nat, close: char, es: seq<Builder.Event>)
  {
    n < |s| && s[n] == close && o.pos <= |s| && RunEnd(Space, s, o.pos) == n && Actions(s, o.trace) == es
  }

  lemma {:induction false} MoreReads(g: Grammar, next: string, rest: seq<Cell>, comma: bool, s: string, q: nat,
                                     h: Outcome, n: nat, es: seq<Builder.Event>)
    requires Ready(g) && q <= |s| && NeatCells(rest) && h == ReadItem(s, q).o && h.ok && Actions(s, h.trace) == es
    requires MoreLaid(next, rest, comma, s, h.pos, n)
    ensures ListRead(s, ReadItems(s, q).o, n, ']', es + ItemEvents(CellValues(rest)))
    decreases rest, 2
  {
    if rest == [] && !comma {
      CellsEnd(s, q, h);
      NoCell(s, n);
    } else {
      var y := h.pos + 1 + |next|;
      CellsRead(g, rest, comma, s, y, n);
      CellsGoOn(s, q, h, y, es, ItemEvents(CellValues(rest)));
    }
  }

  lemma ClosedIs(s: string, p: nat, begin: ActionId, inner: Reading, d: char, end: ActionId, w: nat)
    requires p < inner.o.pos <= |s| && w == RunEnd(Space, s, inner.o.pos) < |s| && s[w] == d
    ensures Closed(s, p, begin, inner, d, end).o
      == Outcome(true, w + 1, [Fired(begin, p, p + 1)] + inner.o.trace + [Fired(end, w, w + 1)])
  {
  }

  lemma CallsAround(s: string, calls: seq<Engine.Event>, a: Engine.Event, t: seq<Engine.Event>, z: Engine.Event)
    requires calls == [a] + t + [z]
    ensures Actions(s, calls) == [Action(s, a)] + Actions(s, t) + [Action(s, z)]
  {
    ListActions(s, a, t, [z]);
    OneAction(s, z);
  }

  lemma RowCloses(s: string, p: nat, q: nat, w: nat, es: seq<Builder.Event>)
    requires p < |s| && s[p] == '[' && RunEnd(Space, s, p + 1) == q <= |s| && Actions(s, ReadItems(s, q).o.trace) == es
    requires RunEnd(Space, s, ReadItems(s, q).o.pos) == w < |s| && s[w] == ']'
    ensures Came(s, p, w + 1, [ArrayBegin] + es + [ArrayEnd])
  {
    var items := ReadItems(s, q);
    ClosedIs(s, p, ARRAY_BEGIN, items, ']', ARRAY_END, w);
    assert ReadArray(s, p) == Closed(s, p, ARRAY_BEGIN, items, ']', ARRAY_END);
    var o := ReadValue(s, p).o;
    assert o == ReadArray(s, p).o;
    CallsAround(s, o.trace, Fired(ARRAY_BEGIN, p, p + 1), items.o.trace, Fired(ARRAY_END, w, w + 1));
  }

  lemma TableCloses(s: string, p: nat, x: nat, w: nat, es: seq<Builder.Event>)
    requires p < |s| && s[p] == '{' && RunEnd(Space, s, p + 1) == x <= |s|
    requires Actions(s, ReadMembers(s, x).o.trace) == es
    requires RunEnd(Space, s, ReadMembers(s, x).o.pos) == w < |s| && s[w] == '}'
    ensures Came(s, p, w + 1, [ObjectBegin] + es + [ObjectEnd])
  {
    var members := ReadMembers(s, x);
    ClosedIs(s, p, OBJ_BEGIN, members, '}', OBJ_END, w);
    var o := ReadValue(s, p).o;
    assert ReadObject(s, p) == Closed(s, p, OBJ_BEGIN, members, '}', OBJ_END);
    assert o == ReadObject(s, p).o;
    CallsAround(s, o.trace, Fired(OBJ_BEGIN, p, p + 1), members.o.trace, Fired(OBJ_END, w, w + 1));
  }

  lemma {:induction false} RowReads(g: Grammar, l: Layout, s: string, p: nat)
    requires Ready(g) && p <= |s| && l.Row? && Neat(l) && HasAt(s, p, LaidOut(l))
    ensures Came(s, p, p + |LaidOut(l)|, Events(ValueOf(l)))
    decreases l, 0
  {
    var text := CellsText(l.cells, l.comma);
    RowText(l, text);
    CellsLead(l.cells, l.comma);
    var body := text + "]";
    var q := OpenThere(s, p, '[', l.lead, body);
    var n := q + |text|;
    CellsAreLaid(l.cells, l.comma, body, s, q, n);
    CellsRead(g, l.cells, l.comma, s, q, n);
    RowCloses(s, p, q, n, ItemEvents(CellValues(l.cells)));
  }

  lemma RowText(l: Layout, text: string)
    requires l.Row? && text == CellsText(l.cells, l.comma)
    ensures LaidOut(l) == ['['] + (l.lead + (text + "]")) && |LaidOut(l)| == 2 + |l.lead| + |text|
    ensures Events(ValueOf(l)) == [ArrayBegin] + ItemEvents(CellValues(l.cells)) + [ArrayEnd]
  {
  }

  // ---- objects ----

  lemma KeyCall(s: string, q: nat, e: nat, key: string)
    requires q < e <= |s| && s[q + 1..e] == key
    ensures Action(s, Fired(OBJ_ITEM, q + 1, e)) == ObjectItem(key)
  {
  }

  lemma CallBefore(s: string, call: Engine.Event, t: seq<Engine.Event>, calls: seq<Engine.Event>)
    requires calls == [call] + t
    ensures Actions(s, calls) == [Action(s, call)] + Actions(s, t)
  {
    ActionsAppend(s, [call], t);
    OneAction(s, call);
  }

  lemma MemberIsRead(s: string, q: nat, e: nat, c: nat, b: nat) returns (h: Outcome)
    requires q < e && e + 1 <= c && c < |s| && s[q] == '"' && Scan(s, q + 1) == e && s[e] == '"'
    requires RunEnd(Space, s, e + 1) == c && s[c] == ':' && RunEnd(Space, s, c + 1) == b <= |s|
    ensures h == ReadMember(s, q).o
    ensures var v := ReadValue(s, b).o; h == Outcome(v.ok, v.pos, [Fired(OBJ_ITEM, q + 1, e)] + v.trace)
  {
    var key, v := QuotedRun(s, q, OBJ_ITEM), ReadValue(s, b);
    assert key.o == Outcome(true, e + 1, [Fired(OBJ_ITEM, q + 1, e)]);
    h := Then(key.o, v.o);
  }

  /** A member has been read. */
  ghost predicate MemberCame(s: string, q: nat, h: Outcome, es: seq<Builder.Event>)
  {
    q <= |s| && h == ReadMember(s, q).o && h.ok && Actions(s, h.trace) == es
  }

  /** A comma, and the end of the white space after it. */
  predicate CommaAt(s: string, w: nat, y: nat)
  {
    w < |s| && s[w] == ',' && Next(s, w) == y
  }

  /** What comes after the last member. */
  predicate Closing(s: string, m: nat, comma: bool)
  {
    Past(s, m) && (comma ==> NoneFollows(s, m))
  }

  lemma MembersGoOn(s: string, q: nat, h: Outcome, y: nat, m: nat, comma: bool, es: seq<Builder.Event>,
                    rest: seq<Builder.Event>)
    requires MemberCame(s, q, h, es) && CommaAt(s, h.pos, y) && MembersRead(s, ReadMembers(s, y).o, m, comma, rest)
    ensures MembersRead(s, ReadMembers(s, q).o, m, comma, es + rest)
  {
    var more := ReadMembers(s, y).o;
    assert ReadMembers(s, q).o == Outcome(true, more.pos, h.trace + more.trace);
    ActionsAppend(s, h.trace, more.trace);
  }

  lemma MembersEnd(s: string, q: nat, h: Outcome, m: nat, es: seq<Builder.Event>)
    requires MemberCame(s, q, h, es) && h.pos == m && Past(s, m)
    ensures MembersRead(s, ReadMembers(s, q).o, m, false, es)
  {
    assert ReadMembers(s, q).o == Outcome(true, h.pos, h.trace);
  }

  lemma {:induction false} RunEndTwice(s: string, p: nat)
    requires p <= |s|
    ensures RunEnd(Space, s, RunEnd(Space, s, p)) == RunEnd(Space, s, p)
    decreases |s| - p
  {
    if p < |s| && InClass(Space, s[p]) { RunEndTwice(s, p + 1); }
  }

  lemma NoEntry(s: string, q: nat)
    requires q <= |s| && (q < |s| ==> s[q] != '"')
    ensures ReadMembers(s, q).o == Yes(q)
  {
  }

  lemma FirstEntry(entries: seq<Entry>)
    requires entries != []
    ensures MemberEvents(EntryMembers(entries))
      == ([ObjectItem(entries[0].key)] + Events(ValueOf(entries[0].item))) + MemberEvents(EntryMembers(entries[1..]))
  {
    var ms := EntryMembers(entries);
    assert ms[0] == Member(entries[0].key, ValueOf(entries[0].item)) && ms[1..] == EntryMembers(entries[1..]);
  }

  /** No quote after the white space after a last comma. */
  predicate NoneFollows(s: string, m: nat)
    requires m <= |s|
  {
    var y := RunEnd(Space, s, m); y < |s| ==> s[y] != '"'
  }

  /** Members have been read up to `m`, or up to white space after it when a comma came last. */
  ghost predicate MembersRead(s: string, o: Outcome, m: nat, comma: bool, es: seq<Builder.Event>)
  {
    && m <= |s| && o.pos <= |s| && RunEnd(Space, s, o.pos) == RunEnd(Space, s, m) && (!comma ==> o.pos == m)
    && Actions(s, o.trace) == es
  }

  lemma {:induction false} EntriesRead(g: Grammar, entries: seq<Entry>, comma: bool, s: string, q: nat, m: nat)
    requires Ready(g) && q <= |s| && NeatEntries(entries) && EntriesLaid(entries, comma, s, q, m)
    requires Closing(s, m, comma)
    ensures MembersRead(s, ReadMembers(s, q).o, m, comma, MemberEvents(EntryMembers(entries)))
    decreases entries, 1
  {
    var e := entries[0];
    var h := EntryIsRead(g, e, s, q, ValueAt(e, q) + |LaidOut(e.item)|);
    FirstEntry(entries);
    var es := [ObjectItem(e.key)] + Events(ValueOf(e.item));
    if entries[1..] == [] && !comma {
      AloneRead(e.next, s, q, h, m, es);
    } else {
      FollowedRead(g, e.next, entries[1..], comma, s, q, h, m, es);
    }
  }

  lemma {:induction false} EntryIsRead(g: Grammar, e: Entry, s: string, q: nat, w: nat) returns (h: Outcome)
    requires Ready(g) && q <= |s| && NeatEntry(e) && EntryLaid(e, s, q, w)
    ensures MemberCame(s, q, h, [ObjectItem(e.key)] + Events(ValueOf(e.item))) && h.pos == w
    decreases e, 0
  {
    var end, c, b := KeyEnd(e, q), ColonAt(e, q), ValueAt(e, q);
    LayoutReads(g, e.item, s, b);
    h := MemberIsRead(s, q, end, c, b);
    KeyCall(s, q, end, e.key);
    CallBefore(s, Fired(OBJ_ITEM, q + 1, end), ReadValue(s, b).o.trace, h.trace);
  }

  lemma AloneRead(next: string, s: string, q: nat, h: Outcome, m: nat, es: seq<Builder.Event>)
    requires MemberCame(s, q, h, es) && OthersLaid(next, [], false, s, h.pos, m) && Past(s, m)
    ensures MembersRead(s, ReadMembers(s, q).o, m, false, es + MemberEvents(EntryMembers([])))
  {
    MembersEnd(s, q, h, m, es);
    assert MemberEvents(EntryMembers([])) == [] && es + [] == es;
  }

  lemma {:induction false} FollowedRead(g: Grammar, next: string, rest: seq<Entry>, comma: bool, s: string, q: nat,
                                        h: Outcome, m: nat, es: seq<Builder.Event>)
    requires Ready(g) && NeatEntries(rest) && MemberCame(s, q, h, es) && (rest != [] || comma)
    requires OthersLaid(next, rest, comma, s, h.pos, m) && Closing(s, m, comma)
    ensures MembersRead(s, ReadMembers(s, q).o, m, comma, es + MemberEvents(EntryMembers(rest)))
    decreases rest, 3
  {
    var y := CommaLaid(next, rest, comma, s, h.pos, m);
    RestRead(g, rest, comma, s, h.pos + 1, y, m);
    MembersGoOn(s, q, h, y, m, comma, es, MemberEvents(EntryMembers(rest)));
  }

  /** What there is after a comma. */
  lemma {:induction false} RestRead(g: Grammar, rest: seq<Entry>, comma: bool, s: string, b: nat, y: nat, m: nat)
    requires Ready(g) && NeatEntries(rest) && (rest != [] || comma) && Closing(s, m, comma)
    requires b <= |s| && y == RunEnd(Space, s, b)
    requires if rest == [] then y == RunEnd(Space, s, m) else EntriesLaid(rest, comma, s, y, m)
    ensures MembersRead(s, ReadMembers(s, y).o, m, comma, MemberEvents(EntryMembers(rest)))
    decreases rest, 2
  {
    if rest == [] {
      assert MemberEvents(EntryMembers(rest)) == [];
      LastComma(s, b, y, m);
    } else {
      EntriesRead(g, rest, comma, s, y, m);
    }
  }

  lemma CommaLaid(next: string, rest: seq<Entry>, comma: bool, s: string, w: nat, m: nat) returns (y: nat)
    requires (rest != [] || comma) && OthersLaid(next, rest, comma, s, w, m) && m <= |s|
    ensures CommaAt(s, w, y) && y == RunEnd(Space, s, w + 1)
    ensures if rest == [] then y == RunEnd(Space, s, m) else EntriesLaid(rest, comma, s, y, m)
  {
    y := RunEnd(Space, s, w + 1);
  }

  /** Nothing is read after the white space after a last comma. */
  lemma LastComma(s: string, b: nat, y: nat, m: nat)
    requires b <= |s| && y == RunEnd(Space, s, b) && m <= |s| && y == RunEnd(Space, s, m) && NoneFollows(s, m)
    ensures MembersRead(s, ReadMembers(s, y).o, m, true, [])
  {
    NoEntry(s, y);
    RunEndTwice(s, b);
  }

  lemma {:induction false} TableReads(g: Grammar, l: Layout, s: string, p: nat)
    requires Ready(g) && p <= |s| && l.Table? && Neat(l) && HasAt(s, p, LaidOut(l))
    ensures Came(s, p, p + |LaidOut(l)|, Events(ValueOf(l)))
    decreases l, 0
  {
    var text := EntriesText(l.entries, l.comma);
    TableText(l, text);
    var q, m, n := TableThere(s, p, l.lead, text, l.end);
    var x := RunEnd(Space, s, p + 1);
    if l.entries != [] {
      QuoteThere(l.entries, l.comma, text, s, q);
      EntriesAreLaid(l.entries, l.comma, text, s, q, m);
      EntriesRead(g, l.entries, l.comma, s, q, m);
    } else {
      NoEntry(s, x);
      RunEndTwice(s, p + 1);
    }
    TableCloses(s, p, x, n, MemberEvents(EntryMembers(l.entries)));
  }

  lemma TableText(l: Layout, text: string)
    requires l.Table? && text == EntriesText(l.entries, l.comma)
    ensures LaidOut(l) == ['{'] + (l.lead + (text + (l.end + "}"))) && |LaidOut(l)| == 2 + |l.lead| + |text| + |l.end|
    ensures Events(ValueOf(l)) == [ObjectBegin] + MemberEvents(EntryMembers(l.entries)) + [ObjectEnd]
  {
  }

  /** The members start at `q`, white space after them at `m`, and the bracket stands at `n`. */
  lemma TableThere(s: string, p: nat, lead: string, text: string, end: string) returns (q: nat, m: nat, n: nat)
    requires p <= |s| && HasAt(s, p, ['{'] + (lead + (text + (end + "}")))) && IsGap(lead) && IsGap(end)
    ensures p < |s| && s[p] == '{' && q == p + 1 + |lead| && m == q + |text| && n == m + |end| < |s| && s[n] == '}'
    ensures RunEnd(Space, s, p + 1) == RunEnd(Space, s, q) && RunEnd(Space, s, m) == n
    ensures HasAt(s, q, text) && Past(s, m)
  {
    var close := end + "}";
    CharThere(s, p, '{', lead + (text + close));
    SplitAt(s, p + 1, lead, text + close);
    GapSkips(s, p + 1, lead);
    q := p + 1 + |lead|;
    m := q + |text|;
    n := m + |end|;
    SplitAt(s, q, text, close);
    Solid('}');
    GapThere(s, m, end, "}");
    CloseFollows(s, m, end);
  }

  lemma CloseFollows(s: string, m: nat, gap: string)
    requires m <= |s| && HasAt(s, m, gap + "}") && IsGap(gap)
    ensures Past(s, m)
  {
    FirstAt(s, m, gap + "}");
    if gap != "" { assert gap[0] in gap; }
  }

  // ---- values and documents ----

  lemma {:induction false} LayoutReads(g: Grammar, l: Layout, s: string, p: nat)
    requires Ready(g) && p <= |s| && Neat(l) && HasAt(s, p, LaidOut(l)) && NumberEnds(s, p + |LaidOut(l)|)
    ensures Came(s, p, p + |LaidOut(l)|, Events(ValueOf(l)))
    decreases l, 1
  {
    match l
    case Printed(v) => SpelledReads(g, v, s, p);
    case Row(_, _, _) => RowReads(g, l, s, p);
    case Table(_, _, _, _) => TableReads(g, l, s, p);
  }
}
