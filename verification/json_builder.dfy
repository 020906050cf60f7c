/** The tree builder that the JSON grammar drives (include/gcm/json/parser.h): a root, the chain
    of open items from the root down to the current one, and a flag set once the root is done.
    An item points into the container its parent points at, so a chain of items is a path. */
module Builder {
  import opened Json

  datatype Step = At(index: nat) | Of(key: string)

  datatype Event =
    | NullValue
    | BoolValue(b: bool)
    | IntValue(digits: string)
    | DoubleValue(digits: string)
    | StringValue(s: string)
    | ArrayBegin
    | ArrayItem
    | ArrayEnd
    | ObjectBegin
    | ObjectItem(key: string)
    | ObjectEnd

  /** The exceptions an action may throw. */
  datatype Fault = UnexpectedInput | WrongType | NotANumber | OutOfRange

  datatype Build = Build(root: Value, path: seq<Step>, stop: bool)

  datatype Result = Built(build: Build) | Thrown(fault: Fault)

  // ---- places in a tree ----

  /** The pointer `st` from inside `v`: the item at an index, or the member under a key. */
  predicate HasChild(v: Value, st: Step)
  {
    match st
    case At(i) => v.Array? && i < |v.items|
    case Of(k) => v.Object? && HasKey(v.members, k)
  }

  function Child(v: Value, st: Step): Value
    requires HasChild(v, st)
  {
    match st
    case At(i) => v.items[i]
    case Of(k) => Lookup(v.members, k)
  }

  function SetChild(v: Value, st: Step, w: Value): Value
    requires HasChild(v, st)
  {
    match st
    case At(i) => Array(v.items[i := w])
    case Of(k) => Object(Replace(v.members, k, w))
  }

  function Replace(ms: seq<Member>, k: string, w: Value): seq<Member>
    requires HasKey(ms, k)
  {
    if ms[0].key == k then [Member(k, w)] + ms[1..] else [ms[0]] + Replace(ms[1..], k, w)
  }

  predicate Reaches(v: Value, path: seq<Step>)
    decreases path
  {
    path == [] || (HasChild(v, path[0]) && Reaches(Child(v, path[0]), path[1..]))
  }

  function Get(v: Value, path: seq<Step>): Value
    requires Reaches(v, path)
    decreases path
  {
    if path == [] then v else Get(Child(v, path[0]), path[1..])
  }

  function Set(v: Value, path: seq<Step>, w: Value): Value
    requires Reaches(v, path)
    decreases path
  {
    if path == [] then w else SetChild(v, path[0], Set(Child(v, path[0]), path[1..], w))
  }

  // ---- std::stoi on what the grammar lets through ----

  datatype Number = Number(n: int) | Bad(fault: Fault)

  predicate IsDigit(ch: char) { '0' <= ch <= '9' }

  function Digits(ds: string): (n: int)
    requires forall ch :: ch in ds ==> IsDigit(ch)
    ensures n >= 0
  {
    if ds == "" then 0 else
    assert IsDigit(ds[|ds| - 1]);
    10 * Digits(ds[..|ds| - 1]) + (ds[|ds| - 1] as int - '0' as int)
  }

  function Unsigned(text: string): string
  {
    if text != "" && (text[0] == '-' || text[0] == '+') then text[1..] else text
  }

  function Stoi(text: string): Number
  {
    var negative := text != "" && text[0] == '-';
    var ds := Unsigned(text);
    if ds == "" || exists ch :: ch in ds && !IsDigit(ch) then Bad(NotANumber) else
    var n := if negative then -Digits(ds) else Digits(ds);
    if FitsInt(n) then Number(n) else Bad(OutOfRange)
  }

  predicate FitsInt(n: int) { -0x8000_0000 <= n < 0x8000_0000 }

  // ---- std::stod on what the grammar lets through ----

  const TWO_TO_97: nat := 0x2_0000_0000_0000_0000_0000_0000
  const TWO_TO_485: nat := TWO_TO_97 * TWO_TO_97 * TWO_TO_97 * TWO_TO_97 * TWO_TO_97

  /** Half-way between the greatest double and 2^1024: from here on, rounding to the nearest gives
      an infinity. */
  const DOUBLE_LIMIT: nat := 0x3F_FFFF_FFFF_FFFF * TWO_TO_485 * TWO_TO_485

  const TWO_TO_1067: nat := TWO_TO_485 * TWO_TO_485 * TWO_TO_97

  function TenTo(n: nat): (t: nat)
    ensures t > 0
  {
    if n == 0 then 1 else 10 * TenTo(n - 1)
  }

  /** Not zero, below 2^-1022 once rounded to 53 bits, and no multiple of 2^-1074: the number n / scale
      loses digits for being too small, which the GNU C library reports like an overflow. */
  predicate Underflows(n: nat, scale: nat)
    requires scale > 0
  {
    n > 0 && n * TWO_TO_1067 * 0x200 < 0x3F_FFFF_FFFF_FFFF * scale && n * TWO_TO_1067 * 0x80 % scale != 0
  }

  /** How many digits a text starts with. */
  function DigitCount(t: string): (n: nat)
    ensures n <= |t| && forall ch :: ch in t[..n] ==> IsDigit(ch)
  {
    if t == "" || !IsDigit(t[0]) then 0 else
    assert t[..1 + DigitCount(t[1..])] == [t[0]] + t[1..][..DigitCount(t[1..])];
    1 + DigitCount(t[1..])
  }

  /** Digits, and after them a dot with the digits of a fraction or an `e` with those of an
      exponent, or neither: is the number in the range of a double? A mark without digits after it
      does not count. */
  predicate FitsDouble(t: string)
  {
    var whole := t[..DigitCount(t)];
    var rest := t[|whole|..];
    var more := if rest == "" then "" else rest[1..][..DigitCount(rest[1..])];
    if more != "" && rest[0] == '.' then
      var n, scale := Digits(whole + more), TenTo(|more|);
      n < DOUBLE_LIMIT * scale && !Underflows(n, scale)
    else
      Digits(whole) * (if more != "" && rest[0] == 'e' then TenTo(Digits(more)) else 1) < DOUBLE_LIMIT
  }

  datatype Conversion = Converted | Failed(fault: Fault)

  function Stod(text: string): Conversion
  {
    if DigitCount(Unsigned(text)) == 0 then Failed(NotANumber)
    else if FitsDouble(Unsigned(text)) then Converted
    else Failed(OutOfRange)
  }

  // ---- one action, as a function of the state ----

  function Start(): Build { Build(Nil, [], false) }

  function ToParent(b: Build): Build
  {
    if b.path != [] then b.(path := b.path[..|b.path| - 1]) else b.(stop := true)
  }

  function Finish(b: Build, w: Value): Result
    requires Reaches(b.root, b.path)
  {
    Built(ToParent(b.(root := Set(b.root, b.path, w))))
  }

  /** The program follows the current pointer for an item without asking whether it is null; here a
      null one has the wrong type, and FirstWriteSuffices says when it does not come to that. */
  function Apply(b: Build, e: Event): Result
    requires Reaches(b.root, b.path)
  {
    if b.stop then Thrown(UnexpectedInput) else
    match e
    case NullValue => Finish(b, Null)
    case BoolValue(x) => Finish(b, Bool(x))
    case IntValue(digits) =>
      (match Stoi(digits)
       case Number(n) => Finish(b, Int(n))
       case Bad(f) => Thrown(f))
    case DoubleValue(digits) =>
      (match Stod(digits)
       case Converted => Finish(b, Double(digits))
       case Failed(f) => Thrown(f))
    case StringValue(s) => Finish(b, String(s))
    case ArrayBegin => Built(b.(root := Set(b.root, b.path, Array([]))))
    case ArrayItem =>
      var here := Get(b.root, b.path);
      if !here.Array? then Thrown(WrongType) else
      Built(b.(root := Set(b.root, b.path, Array(here.items + [Null])), path := b.path + [At(|here.items|)]))
    case ArrayEnd => Built(ToParent(b))
    case ObjectBegin => Built(b.(root := Set(b.root, b.path, Object([]))))
    case ObjectItem(k) =>
      var here := Get(b.root, b.path);
      if !here.Object? then Thrown(WrongType) else
      Built(b.(root := Set(b.root, b.path, Object(Insert(here.members, k, Null))), path := b.path + [Of(k)]))
    case ObjectEnd => Built(ToParent(b))
  }

  // ---- places: laws ----

  lemma {:induction false} InsertedKey(ms: seq<Member>, k: string, v: Value)
    ensures HasKey(Insert(ms, k, v), k) && Lookup(Insert(ms, k, v), k) == v
    ensures forall w :: Replace(Insert(ms, k, v), k, w) == Insert(ms, k, w)
  {
    if ms != [] && ms[0].key != k && !Less(k, ms[0].key) {
      InsertedKey(ms[1..], k, v);
      assert Insert(ms, k, v)[1..] == Insert(ms[1..], k, v);
      forall w ensures Replace(Insert(ms, k, v), k, w) == Insert(ms, k, w) {
        assert Replace(Insert(ms[1..], k, v), k, w) == Insert(ms[1..], k, w);
      }
    }
  }

  lemma {:induction false} ReplacedKey(ms: seq<Member>, k: string, v: Value)
    requires HasKey(ms, k)
    ensures HasKey(Replace(ms, k, v), k) && Lookup(Replace(ms, k, v), k) == v
    ensures forall w :: Replace(Replace(ms, k, v), k, w) == Replace(ms, k, w)
  {
    if ms[0].key == k {
      forall w ensures Replace(Replace(ms, k, v), k, w) == Replace(ms, k, w) {
        assert Replace(ms, k, v)[1..] == ms[1..];
      }
    } else {
      ReplacedKey(ms[1..], k, v);
      assert Replace(ms, k, v)[1..] == Replace(ms[1..], k, v);
      forall w ensures Replace(Replace(ms, k, v), k, w) == Replace(ms, k, w) {
        assert Replace(Replace(ms[1..], k, v), k, w) == Replace(ms[1..], k, w);
      }
    }
  }

  lemma SetChildLaws(v: Value, st: Step, a: Value, b: Value)
    requires HasChild(v, st)
    ensures HasChild(SetChild(v, st, a), st) && Child(SetChild(v, st, a), st) == a
    ensures SetChild(SetChild(v, st, a), st, b) == SetChild(v, st, b)
  {
    if st.Of? { ReplacedKey(v.members, st.key, a); }
  }

  /** Writing at a place and then at or below it. */
  lemma {:induction false} SetLaws(v: Value, path: seq<Step>, a: Value, b: Value)
    requires Reaches(v, path)
    ensures Reaches(Set(v, path, a), path) && Get(Set(v, path, a), path) == a
    ensures Set(Set(v, path, a), path, b) == Set(v, path, b)
    decreases path
  {
    if path != [] {
      var c := Child(v, path[0]);
      SetLaws(c, path[1..], a, b);
      SetChildLaws(v, path[0], Set(c, path[1..], a), Set(Set(c, path[1..], a), path[1..], b));
    }
  }

  lemma {:induction false} BelowLaws(v: Value, path: seq<Step>, st: Step, w: Value)
    requires Reaches(v, path)
    ensures Reaches(v, path + [st]) <==> HasChild(Get(v, path), st)
    ensures HasChild(Get(v, path), st) ==>
      Get(v, path + [st]) == Child(Get(v, path), st) &&
      Set(v, path + [st], w) == Set(v, path, SetChild(Get(v, path), st, w))
    decreases path
  {
    if path == [] {
      assert path + [st] == [st] && [st][1..] == [];
      assert Reaches(v, [st]) <==> HasChild(v, st) && Reaches(Child(v, st), []);
    } else {
      assert (path + [st])[1..] == path[1..] + [st];
      BelowLaws(Child(v, path[0]), path[1..], st, w);
    }
  }

  lemma {:induction false} PrefixReaches(v: Value, path: seq<Step>, n: nat)
    requires Reaches(v, path) && n <= |path|
    ensures Reaches(v, path[..n])
    decreases path
  {
    if n > 0 {
      PrefixReaches(Child(v, path[0]), path[1..], n - 1);
      assert path[..n][1..] == path[1..][..n - 1];
    }
  }

  // ---- what every action keeps ----

  /** The chain of items leads from the root to the current item, and an array item on it is the
      last of its array. */
  ghost predicate Valid(b: Build)
  {
    Reaches(b.root, b.path) && Rightmost(b.root, b.path)
  }

  ghost predicate Rightmost(v: Value, path: seq<Step>)
    requires Reaches(v, path)
    decreases path
  {
    path == [] ||
    ((path[0].At? ==> path[0].index == |v.items| - 1) && Rightmost(Child(v, path[0]), path[1..]))
  }

  lemma {:induction false} SetKeepsRightmost(v: Value, path: seq<Step>, w: Value)
    requires Reaches(v, path) && Rightmost(v, path)
    ensures Reaches(Set(v, path, w), path) && Rightmost(Set(v, path, w), path)
    decreases path
  {
    SetLaws(v, path, w, w);
    if path != [] {
      var c := Child(v, path[0]);
      SetKeepsRightmost(c, path[1..], w);
      SetChildLaws(v, path[0], Set(c, path[1..], w), w);
    }
  }

  lemma {:induction false} PrefixRightmost(v: Value, path: seq<Step>, n: nat)
    requires Reaches(v, path) && Rightmost(v, path) && n <= |path|
    ensures Reaches(v, path[..n]) && Rightmost(v, path[..n])
    decreases path
  {
    PrefixReaches(v, path, n);
    if n > 0 {
      PrefixRightmost(Child(v, path[0]), path[1..], n - 1);
      assert path[..n][1..] == path[1..][..n - 1];
    }
  }

  lemma {:induction false} DownRightmost(v: Value, path: seq<Step>, st: Step)
    requires Reaches(v, path) && Rightmost(v, path) && HasChild(Get(v, path), st)
    requires st.At? ==> st.index == |Get(v, path).items| - 1
    ensures Reaches(v, path + [st]) && Rightmost(v, path + [st])
    decreases path
  {
    BelowLaws(v, path, st, Null);
    if path == [] {
      assert path + [st] == [st] && [st][1..] == [];
    } else {
      assert (path + [st])[1..] == path[1..] + [st];
      DownRightmost(Child(v, path[0]), path[1..], st);
    }
  }

  /** No action, in whatever order the actions come, breaks the chain. */
  lemma ActionsKeepChain(b: Build, e: Event)
    requires Valid(b)
    ensures Apply(b, e).Built? ==> Valid(Apply(b, e).build)
  {
    var r := Apply(b, e);
    if r.Built? {
      match e
      case ArrayItem =>
        var here := Get(b.root, b.path);
        var grown := Array(here.items + [Null]);
        SetLaws(b.root, b.path, grown, grown);
        SetKeepsRightmost(b.root, b.path, grown);
        DownRightmost(r.build.root, b.path, At(|here.items|));
      case ObjectItem(k) =>
        var here := Get(b.root, b.path);
        var grown := Object(Insert(here.members, k, Null));
        InsertedKey(here.members, k, Null);
        SetLaws(b.root, b.path, grown, grown);
        SetKeepsRightmost(b.root, b.path, grown);
        DownRightmost(r.build.root, b.path, Of(k));
      case ArrayEnd => if b.path != [] { PrefixRightmost(b.root, b.path, |b.path| - 1); }
      case ObjectEnd => if b.path != [] { PrefixRightmost(b.root, b.path, |b.path| - 1); }
      case ArrayBegin => SetKeepsRightmost(b.root, b.path, Array([]));
      case ObjectBegin => SetKeepsRightmost(b.root, b.path, Object([]));
      case _ =>
        var w := Written(e);
        SetKeepsRightmost(b.root, b.path, w);
        var root := Set(b.root, b.path, w);
        if b.path != [] { PrefixRightmost(root, b.path, |b.path| - 1); }
    }
  }

  /** The value a one-action event writes. */
  function Written(e: Event): Value
  {
    match e
    case BoolValue(x) => Bool(x)
    case IntValue(digits) => if Stoi(digits).Number? then Int(Stoi(digits).n) else Nil
    case DoubleValue(digits) => Double(digits)
    case StringValue(s) => String(s)
    case _ => Null
  }

  // ---- whole runs ----

  function Replay(b: Build, events: seq<Event>): (r: Result)
    requires Reaches(b.root, b.path)
    ensures r.Built? ==> Reaches(r.build.root, r.build.path)
    decreases events
  {
    if events == [] then Built(b) else
    ApplyReaches(b, events[0]);
    match Apply(b, events[0])
    case Thrown(f) => Thrown(f)
    case Built(next) => Replay(next, events[1..])
  }

  /** Which of the actions throws. */
  function FaultIndex(b: Build, events: seq<Event>): (k: nat)
    requires Reaches(b.root, b.path) && Replay(b, events).Thrown?
    ensures k < |events|
    decreases events
  {
    ApplyReaches(b, events[0]);
    if Apply(b, events[0]).Thrown? then 0 else 1 + FaultIndex(Apply(b, events[0]).build, events[1..])
  }

  lemma ApplyReaches(b: Build, e: Event)
    requires Reaches(b.root, b.path)
    ensures Apply(b, e).Built? ==> Reaches(Apply(b, e).build.root, Apply(b, e).build.path)
  {
    var r := Apply(b, e);
    if r.Built? {
      var w := match e case ArrayBegin => Array([]) case ObjectBegin => Object([]) case _ => Written(e);
      SetLaws(b.root, b.path, w, w);
      match e
      case ArrayItem =>
        var here := Get(b.root, b.path);
        SetLaws(b.root, b.path, Array(here.items + [Null]), Null);
        BelowLaws(r.build.root, b.path, At(|here.items|), Null);
      case ObjectItem(k) =>
        var here := Get(b.root, b.path);
        InsertedKey(here.members, k, Null);
        SetLaws(b.root, b.path, Object(Insert(here.members, k, Null)), Null);
        BelowLaws(r.build.root, b.path, Of(k), Null);
      case ArrayEnd => if b.path != [] { PrefixReaches(b.root, b.path, |b.path| - 1); }
      case ObjectEnd => if b.path != [] { PrefixReaches(b.root, b.path, |b.path| - 1); }
      case _ =>
        if b.path != [] { PrefixReaches(Set(b.root, b.path, w), b.path, |b.path| - 1); }
    }
  }

  lemma {:induction false} RunsKeepChain(b: Build, events: seq<Event>)
    requires Valid(b)
    ensures Replay(b, events).Built? ==> Valid(Replay(b, events).build)
    decreases events
  {
    if events != [] {
      ActionsKeepChain(b, events[0]);
      var r := Apply(b, events[0]);
      if r.Built? { RunsKeepChain(r.build, events[1..]); }
    }
  }

  lemma {:induction false} ReplayAppend(b: Build, xs: seq<Event>, ys: seq<Event>)
    requires Reaches(b.root, b.path)
    ensures Replay(b, xs + ys) ==
            match Replay(b, xs) case Thrown(f) => Thrown(f) case Built(m) => Replay(m, ys)
    decreases xs
  {
    if xs == [] {
      assert xs + ys == ys;
    } else {
      assert (xs + ys)[1..] == xs[1..] + ys;
      ApplyReaches(b, xs[0]);
      var r := Apply(b, xs[0]);
      if r.Built? { ReplayAppend(r.build, xs[1..], ys); }
    }
  }

  // ---- no null pointers, except before the first action ----

  predicate Whole(v: Value)
  {
    match v
    case Nil => false
    case Array(items) => forall x :: x in items ==> Whole(x)
    case Object(members) => forall m :: m in members ==> Whole(m.value)
    case _ => true
  }

  lemma {:induction false} LookupWhole(ms: seq<Member>, k: string)
    requires HasKey(ms, k) && forall m :: m in ms ==> Whole(m.value)
    ensures Whole(Lookup(ms, k))
  {
    if ms[0].key != k { LookupWhole(ms[1..], k); }
  }

  lemma {:induction false} ReplaceMembers(ms: seq<Member>, k: string, w: Value)
    requires HasKey(ms, k)
    ensures forall m :: m in Replace(ms, k, w) ==> m in ms || m == Member(k, w)
  {
    if ms[0].key != k { ReplaceMembers(ms[1..], k, w); }
  }

  lemma {:induction false} GetWhole(v: Value, path: seq<Step>)
    requires Reaches(v, path) && Whole(v)
    ensures Whole(Get(v, path))
    decreases path
  {
    if path != [] {
      if path[0].Of? { LookupWhole(v.members, path[0].key); }
      GetWhole(Child(v, path[0]), path[1..]);
    }
  }

  lemma {:induction false} SetWhole(v: Value, path: seq<Step>, w: Value)
    requires Reaches(v, path) && Whole(w) && (path == [] || Whole(v))
    ensures Whole(Set(v, path, w))
    decreases path
  {
    if path != [] {
      var c := Child(v, path[0]);
      if path[0].Of? { LookupWhole(v.members, path[0].key); }
      SetWhole(c, path[1..], w);
      if path[0].Of? { ReplaceMembers(v.members, path[0].key, Set(c, path[1..], w)); }
    }
  }

  predicate Opens(e: Event) { e.ArrayItem? || e.ObjectItem? }

  predicate Writes(e: Event) { !Opens(e) && !e.ArrayEnd? && !e.ObjectEnd? }

  lemma ActionsKeepWhole(b: Build, e: Event)
    requires Reaches(b.root, b.path) && Apply(b, e).Built?
    requires Whole(b.root) || (b.path == [] && Writes(e))
    ensures Whole(Apply(b, e).build.root)
  {
    match e
    case ArrayItem =>
      var here := Get(b.root, b.path);
      GetWhole(b.root, b.path);
      SetWhole(b.root, b.path, Array(here.items + [Null]));
    case ObjectItem(k) =>
      var here := Get(b.root, b.path);
      GetWhole(b.root, b.path);
      InsertMembers(here.members, k, Null);
      SetWhole(b.root, b.path, Object(Insert(here.members, k, Null)));
    case ArrayEnd =>
    case ObjectEnd =>
    case ArrayBegin => SetWhole(b.root, b.path, Array([]));
    case ObjectBegin => SetWhole(b.root, b.path, Object([]));
    case _ => SetWhole(b.root, b.path, Written(e));
  }

  lemma {:induction false} RunsKeepWhole(b: Build, events: seq<Event>)
    requires Reaches(b.root, b.path) && Whole(b.root) && Replay(b, events).Built?
    ensures Whole(Replay(b, events).build.root)
    decreases events
  {
    if events != [] {
      ApplyReaches(b, events[0]);
      ActionsKeepWhole(b, events[0]);
      RunsKeepWhole(Apply(b, events[0]).build, events[1..]);
    }
  }

  /** When the first action writes a value, every later one finds something to act on. */
  lemma FirstWriteSuffices(events: seq<Event>, k: nat)
    requires k <= |events| && k > 0 && Writes(events[0]) && Replay(Start(), events[..k]).Built?
    ensures var b := Replay(Start(), events[..k]).build; Get(b.root, b.path) != Nil
  {
    var b := Replay(Start(), events[..k]).build;
    ApplyReaches(Start(), events[0]);
    ActionsKeepWhole(Start(), events[0]);
    RunsKeepWhole(Apply(Start(), events[0]).build, events[..k][1..]);
    GetWhole(b.root, b.path);
  }

  // ---- the actions a value gives rise to ----

  function Events(v: Value): seq<Event>
  {
    match v
    case Nil => [NullValue]
    case Null => [NullValue]
    case Bool(b) => [BoolValue(b)]
    case Int(i) => [IntValue(Decimal(i))]
    case Double(spelling) => [DoubleValue(spelling)]
    case String(s) => [StringValue(s)]
    case Array(items) => [ArrayBegin] + ItemEvents(items) + [ArrayEnd]
    case Object(members) => [ObjectBegin] + MemberEvents(members) + [ObjectEnd]
  }

  function ItemEvents(items: seq<Value>): seq<Event>
  {
    if items == [] then [] else [ArrayItem] + Events(items[0]) + ItemEvents(items[1..])
  }

  function MemberEvents(members: seq<Member>): seq<Event>
  {
    if members == [] then []
    else [ObjectItem(members[0].key)] + Events(members[0].value) + MemberEvents(members[1..])
  }

  /** The value that is built from `v` when its members may come in any order and repeat: they
      are stored one by one in a map. */
  function Stored(v: Value): Value
  {
    match v
    case Nil => Null
    case Array(items) => Array(StoredItems(items))
    case Object(members) => Object(StoredMembers([], members))
    case _ => v
  }

  function StoredItems(items: seq<Value>): (r: seq<Value>)
    ensures |r| == |items|
  {
    if items == [] then [] else [Stored(items[0])] + StoredItems(items[1..])
  }

  function StoredMembers(done: seq<Member>, members: seq<Member>): seq<Member>
    decreases members
  {
    if members == [] then done
    else StoredMembers(Insert(done, members[0].key, Stored(members[0].value)), members[1..])
  }

  predicate NumbersFit(v: Value)
  {
    match v
    case Int(i) => FitsInt(i)
    case Double(spelling) => Stod(spelling).Converted?
    case Array(items) => forall x :: x in items ==> NumbersFit(x)
    case Object(members) => forall m :: m in members ==> NumbersFit(m.value)
    case _ => true
  }

  lemma {:induction false} DecimalDigits(n: nat)
    ensures Decimal(n) != "" && (forall ch :: ch in Decimal(n) ==> IsDigit(ch)) && Digits(Decimal(n)) == n
  {
    if n >= 10 {
      DecimalDigits(n / 10);
      var ds := Decimal(n);
      assert ds[..|ds| - 1] == Decimal(n / 10);
    } else {
      assert Decimal(n)[..0] == "";
    }
  }

  lemma StoiOfDecimal(n: int)
    ensures Stoi(Decimal(n)) == if FitsInt(n) then Number(n) else Bad(OutOfRange)
  {
    if n < 0 {
      DecimalDigits(-n);
      assert Decimal(n)[1..] == Decimal(-n);
    } else {
      DecimalDigits(n);
      assert Decimal(n)[0] in Decimal(n);
    }
  }

  /** Replaying what a value gives rise to fills the hole at the current item with that value
      and nothing else, and makes the parent current again. */
  lemma {:induction false} ReplayFillsHole(b: Build, v: Value)
    requires Reaches(b.root, b.path) && !b.stop && NumbersFit(v)
    ensures Replay(b, Events(v)) == Finish(b, Stored(v))
    decreases v, 0
  {
    match v
    case Array(items) => ReplayArray(b, items);
    case Object(members) => ReplayObject(b, members);
    case Int(i) => StoiOfDecimal(i); ReplayOne(b, IntValue(Decimal(i)));
    case _ => ReplayOne(b, Events(v)[0]);
  }

  lemma {:induction false} ReplayArray(b: Build, items: seq<Value>)
    requires Reaches(b.root, b.path) && !b.stop && forall x :: x in items ==> NumbersFit(x)
    ensures Replay(b, Events(Array(items))) == Finish(b, Stored(Array(items)))
    decreases items, 1
  {
    var begun := b.(root := Set(b.root, b.path, Array([])));
    var whole := Array(StoredItems(items));
    SetLaws(b.root, b.path, Array([]), whole);
    assert [] + StoredItems(items) == StoredItems(items);
    ReplayItems(begun, items);
    ReplayBracketed(b, ArrayBegin, Array([]), ItemEvents(items), whole, ArrayEnd);
  }

  /** The actions between the opening and the closing one turn an empty container into `whole`. */
  lemma ReplayBracketed(b: Build, first: Event, empty: Value, inner: seq<Event>, whole: Value, last: Event)
    requires Reaches(b.root, b.path) && !b.stop
    requires (first == ArrayBegin && empty == Array([])) || (first == ObjectBegin && empty == Object([]))
    requires last == ArrayEnd || last == ObjectEnd
    requires var begun := b.(root := Set(b.root, b.path, empty));
      Reaches(begun.root, b.path) && Replay(begun, inner) == Built(b.(root := Set(b.root, b.path, whole)))
    ensures Replay(b, [first] + inner + [last]) == Finish(b, whole)
  {
    ReplayOne(b, first);
    ReplayAppend(b, [first], inner);
    ReplayAppend(b, [first] + inner, [last]);
    SetLaws(b.root, b.path, whole, Null);
    ReplayOne(b.(root := Set(b.root, b.path, whole)), last);
  }

  lemma {:induction false} ReplayObject(b: Build, members: seq<Member>)
    requires Reaches(b.root, b.path) && !b.stop && forall m :: m in members ==> NumbersFit(m.value)
    ensures Replay(b, Events(Object(members))) == Finish(b, Stored(Object(members)))
    decreases members, 1
  {
    var begun := b.(root := Set(b.root, b.path, Object([])));
    var whole := Object(StoredMembers([], members));
    SetLaws(b.root, b.path, Object([]), whole);
    ReplayMembers(begun, members);
    ReplayBracketed(b, ObjectBegin, Object([]), MemberEvents(members), whole, ObjectEnd);
  }

  lemma ReplayOne(b: Build, e: Event)
    requires Reaches(b.root, b.path)
    ensures Replay(b, [e]) == Apply(b, e)
  {
    ApplyReaches(b, e);
    assert [e][1..] == [];
  }

  lemma {:induction false} ReplayItems(b: Build, items: seq<Value>)
    requires Reaches(b.root, b.path) && !b.stop && Get(b.root, b.path).Array?
    requires forall x :: x in items ==> NumbersFit(x)
    ensures var done := Get(b.root, b.path).items;
            Replay(b, ItemEvents(items)) == Built(b.(root := Set(b.root, b.path, Array(done + StoredItems(items)))))
    decreases items, 0
  {
    var done := Get(b.root, b.path).items;
    if items == [] {
      assert done + [] == done;
      SetSame(b.root, b.path);
    } else {
      assert items[0] in items;
      var rest := StoredItems(items[1..]);
      var one := Array(done + [Stored(items[0])]);
      var next := b.(root := Set(b.root, b.path, one));
      ReplayAppend(b, [ArrayItem] + Events(items[0]), ItemEvents(items[1..]));
      ReplayItem(b, items[0]);
      SetLaws(b.root, b.path, one, Array(one.items + rest));
      ReplayItems(next, items[1..]);
      Grown(done, Stored(items[0]), rest);
    }
  }

  lemma Grown(done: seq<Value>, x: Value, rest: seq<Value>)
    ensures (done + [x]) + rest == done + ([x] + rest)
  {
  }

  lemma {:induction false} ReplayItem(b: Build, v: Value)
    requires Reaches(b.root, b.path) && !b.stop && Get(b.root, b.path).Array? && NumbersFit(v)
    ensures var done := Get(b.root, b.path).items;
            Replay(b, [ArrayItem] + Events(v)) == Built(b.(root := Set(b.root, b.path, Array(done + [Stored(v)]))))
    decreases v, 1
  {
    var done := Get(b.root, b.path).items;
    ReplayAppend(b, [ArrayItem], Events(v));
    ReplayOne(b, ArrayItem);
    ApplyReaches(b, ArrayItem);
    ReplayFillsHole(Apply(b, ArrayItem).build, v);
    HoleFilled(b, Array(done + [Null]), At(|done|), Stored(v));
    assert (done + [Null])[|done| := Stored(v)] == done + [Stored(v)];
  }

  lemma {:induction false} ReplayMembers(b: Build, members: seq<Member>)
    requires Reaches(b.root, b.path) && !b.stop && Get(b.root, b.path).Object?
    requires forall m :: m in members ==> NumbersFit(m.value)
    ensures var done := Get(b.root, b.path).members;
            Replay(b, MemberEvents(members))
              == Built(b.(root := Set(b.root, b.path, Object(StoredMembers(done, members)))))
    decreases members, 0
  {
    var done := Get(b.root, b.path).members;
    if members == [] {
      SetSame(b.root, b.path);
    } else {
      var m := members[0];
      assert m in members;
      var one := Object(Insert(done, m.key, Stored(m.value)));
      ReplayAppend(b, [ObjectItem(m.key)] + Events(m.value), MemberEvents(members[1..]));
      ReplayMember(b, m.key, m.value);
      SetLaws(b.root, b.path, one, Object(StoredMembers(done, members)));
      ReplayMembers(b.(root := Set(b.root, b.path, one)), members[1..]);
    }
  }

  lemma {:induction false} ReplayMember(b: Build, k: string, v: Value)
    requires Reaches(b.root, b.path) && !b.stop && Get(b.root, b.path).Object? && NumbersFit(v)
    ensures var done := Get(b.root, b.path).members;
            Replay(b, [ObjectItem(k)] + Events(v))
              == Built(b.(root := Set(b.root, b.path, Object(Insert(done, k, Stored(v))))))
    decreases v, 1
  {
    var done := Get(b.root, b.path).members;
    ReplayAppend(b, [ObjectItem(k)], Events(v));
    ReplayOne(b, ObjectItem(k));
    ApplyReaches(b, ObjectItem(k));
    ReplayFillsHole(Apply(b, ObjectItem(k)).build, v);
    InsertedKey(done, k, Null);
    HoleFilled(b, Object(Insert(done, k, Null)), Of(k), Stored(v));
  }

  lemma {:induction false} SetSame(v: Value, path: seq<Step>)
    requires Reaches(v, path)
    ensures Set(v, path, Get(v, path)) == v
    decreases path
  {
    if path != [] {
      SetSame(Child(v, path[0]), path[1..]);
      if path[0].Of? { ReplaceSame(v.members, path[0].key); }
    }
  }

  lemma {:induction false} ReplaceSame(ms: seq<Member>, k: string)
    requires HasKey(ms, k)
    ensures Replace(ms, k, Lookup(ms, k)) == ms
  {
    if ms[0].key != k { ReplaceSame(ms[1..], k); }
  }

  /** Filling the hole below a container just grown at the current item. */
  lemma HoleFilled(b: Build, grown: Value, st: Step, x: Value)
    requires Reaches(b.root, b.path) && !b.stop && HasChild(grown, st)
    ensures var hole := b.(root := Set(b.root, b.path, grown), path := b.path + [st]);
            Reaches(hole.root, hole.path) &&
            Finish(hole, x) == Built(b.(root := Set(b.root, b.path, SetChild(grown, st, x))))
  {
    SetLaws(b.root, b.path, grown, SetChild(grown, st, x));
    BelowLaws(Set(b.root, b.path, grown), b.path, st, x);
    assert (b.path + [st])[..|b.path + [st]| - 1] == b.path;
  }

  /** Once the root is complete every further action is refused. */
  lemma CompleteRefusesInput(b: Build, v: Value, e: Event)
    requires Reaches(b.root, b.path) && b.path == [] && !b.stop && NumbersFit(v)
    ensures Replay(b, Events(v) + [e]) == Thrown(UnexpectedInput)
  {
    ReplayFillsHole(b, v);
    ReplayAppend(b, Events(v), [e]);
    ReplayOne(Build(Stored(v), [], true), e);
  }

  /** A key that is not repeated by what is stored later keeps its value... */
  lemma {:induction false} OtherKeysKept(done: seq<Member>, members: seq<Member>, k: string)
    requires Ascending(done) && forall m :: m in members ==> m.key != k
    ensures Ascending(StoredMembers(done, members))
    ensures Lookup(StoredMembers(done, members), k) == Lookup(done, k)
    decreases members
  {
    if members != [] {
      var v := Stored(members[0].value);
      assert members[0] in members;
      InsertIsMapUpdate(done, members[0].key, v, k);
      OtherKeysKept(Insert(done, members[0].key, v), members[1..], k);
    }
  }

  /** ... so that the last member with a key is the one that is found under it. */
  lemma {:induction false} LastValueWins(done: seq<Member>, members: seq<Member>, last: nat)
    requires Ascending(done) && last < |members|
    requires forall j :: last < j < |members| ==> members[j].key != members[last].key
    ensures Lookup(StoredMembers(done, members), members[last].key) == Stored(members[last].value)
    decreases members
  {
    var k, v := members[0].key, Stored(members[0].value);
    InsertIsMapUpdate(done, k, v, k);
    if last == 0 {
      OtherKeysKept(Insert(done, k, v), members[1..], k);
    } else {
      LastValueWins(Insert(done, k, v), members[1..], last - 1);
    }
  }

  // ---- the builder as the program has it ----

  datatype Status = Fine | Raised(fault: Fault)

  class TreeBuilder {
    var value: Value
    var current: seq<Step>
    var stop: bool

    ghost function Now(): Build
      reads this
    {
      Build(value, current, stop)
    }

    constructor ()
      ensures Now() == Start()
    {
      value, current, stop := Nil, [], false;
    }

    method LevelUp()
      modifies this
      ensures Now() == ToParent(old(Now()))
    {
      if current != [] {
        current := current[..|current| - 1];
      } else {
        stop := true;
      }
    }

    /** One action. When it throws, the builder is as it was. */
    method Receive(e: Event) returns (status: Status)
      requires Reaches(value, current)
      modifies this
      ensures match Apply(old(Now()), e)
              case Built(b) => status == Fine && Now() == b && Reaches(value, current)
              case Thrown(f) => status == Raised(f) && Now() == old(Now())
    {
      ApplyReaches(Now(), e);
      if stop {
        return Raised(UnexpectedInput);
      }
      match e {
        case NullValue => value := Set(value, current, Null); LevelUp();
        case BoolValue(x) => value := Set(value, current, Bool(x)); LevelUp();
        case IntValue(digits) =>
          match Stoi(digits) {
            case Bad(f) => return Raised(f);
            case Number(n) => value := Set(value, current, Int(n)); LevelUp();
          }
        case DoubleValue(digits) =>
          match Stod(digits) {
            case Failed(f) => return Raised(f);
            case Converted => value := Set(value, current, Double(digits)); LevelUp();
          }
        case StringValue(s) => value := Set(value, current, String(s)); LevelUp();
        case ArrayBegin => value := Set(value, current, Array([]));
        case ArrayItem =>
          var here := Get(value, current);
          if !here.Array? {
            return Raised(WrongType);
          }
          value := Set(value, current, Array(here.items + [Null]));
          current := current + [At(|here.items|)];
        case ArrayEnd => LevelUp();
        case ObjectBegin => value := Set(value, current, Object([]));
        case ObjectItem(k) =>
          var here := Get(value, current);
          if !here.Object? {
            return Raised(WrongType);
          }
          value := Set(value, current, Object(Insert(here.members, k, Null)));
          current := current + [Of(k)];
        case ObjectEnd => LevelUp();
      }
      status := Fine;
    }
  }
}
