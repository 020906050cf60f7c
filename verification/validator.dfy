/** The schema validator of the JSON-RPC layer (include/gcm/json/validator): it reports every
    problem it finds and, on its way, fills in what is missing. */
module Validator {
  import opened Json

  datatype Kind = NullKind | ObjectKind | ArrayKind | IntKind | DoubleKind | StringKind | BoolKind

  function KindOf(v: Value): Kind
    requires v != Nil
  {
    match v
    case Null => NullKind
    case Bool(_) => BoolKind
    case Int(_) => IntKind
    case Double(_) => DoubleKind
    case String(_) => StringKind
    case Array(_) => ArrayKind
    case Object(_) => ObjectKind
  }

  function StrType(k: Kind): string
  {
    match k
    case NullKind => "json::Null"
    case ObjectKind => "json::Object"
    case ArrayKind => "json::Array"
    case IntKind => "json::Int"
    case DoubleKind => "json::Double"
    case StringKind => "json::String"
    case BoolKind => "json::Bool"
  }

  datatype Def =
    | Plain(kind: Kind, item: string)
    | AnyType(item: string)
    | ArrayOf(item: string, contents: Def)
    | ObjectOf(item: string, fields: seq<Def>)
    | Nullable(inner: Def)
    | Optional(inner: Def)
    | WithDefault(inner: Def, value: Value)

  function GetItem(d: Def): string
  {
    match d
    case Nullable(inner) => GetItem(inner)
    case Optional(inner) => GetItem(inner)
    case WithDefault(inner, _) => GetItem(inner)
    case _ => d.item
  }

  datatype ProblemCode = WrongType | CannotBeNull | MustBePresent | UnexpectedParam

  datatype Problem = Problem(item: string, code: ProblemCode, description: string)

  // ---- what there is to say of one value ----

  /** A value of a type, by its constructor. */
  predicate OfKind(k: Kind, v: Value)
  {
    match k
    case NullKind => v == Null
    case ObjectKind => v.Object?
    case ArrayKind => v.Array?
    case IntKind => v.Int?
    case DoubleKind => v.Double?
    case StringKind => v.String?
    case BoolKind => v.Bool?
  }

  function KindName(k: Kind): string
  {
    match k
    case NullKind => "json::Null"
    case ObjectKind => "json::Object"
    case ArrayKind => "json::Array"
    case IntKind => "json::Int"
    case DoubleKind => "json::Double"
    case StringKind => "json::String"
    case BoolKind => "json::Bool"
  }

  /** What there is to say of a value that should be of type `k` and is not. */
  predicate Misfit(k: Kind, item: string, x: Value, p: Problem)
  {
    match x
    case Nil => p == Problem(item, MustBePresent, "Item " + item + " must be present.")
    case Null => k != NullKind && p == Problem(item, CannotBeNull, "Item " + item + " cannot be null.")
    case _ =>
      && !OfKind(k, x)
      && exists got ::
           && OfKind(got, x)
           && p == Problem(item, WrongType, "Wrong type. Expected " + KindName(k) + ", instead got " + KindName(got))
  }

  // ---- what a value violates ----

  function MissingProblem(item: string): Problem
  {
    Problem(item, MustBePresent, "Item " + item + " must be present.")
  }

  function TypeProblem(item: string, expected: Kind, got: Kind): Problem
  {
    if got == NullKind then Problem(item, CannotBeNull, "Item " + item + " cannot be null.")
    else Problem(item, WrongType, "Wrong type. Expected " + StrType(expected) + ", instead got " + StrType(got))
  }

  function UnexpectedProblem(key: string): Problem
  {
    Problem(key, UnexpectedParam, "Object does not have item " + key)
  }

  function KindProblems(k: Kind, item: string, v: Value): seq<Problem>
  {
    if v == Nil then [MissingProblem(item)]
    else if KindOf(v) != k then [TypeProblem(item, k, KindOf(v))]
    else []
  }

  lemma KindIs(v: Value, k: Kind)
    requires v != Nil
    ensures OfKind(k, v) <==> KindOf(v) == k
  {
  }

  /** At most one problem is reported of a value's type, and it is the one that fits. */
  lemma KindReport(k: Kind, item: string, x: Value)
    ensures |KindProblems(k, item, x)| <= 1
    ensures forall p :: p in KindProblems(k, item, x) <==> Misfit(k, item, x, p)
  {
    if x != Nil {
      KindIs(x, k);
      KindIs(x, KindOf(x));
      forall got | OfKind(got, x) ensures got == KindOf(x) { KindIs(x, got); }
    }
  }

  predicate Named(fields: seq<Def>, key: string)
  {
    fields != [] && (GetItem(fields[0]) == key || Named(fields[1..], key))
  }

  function UnexpectedKeys(fields: seq<Def>, ms: seq<Member>): seq<Problem>
  {
    if ms == [] then []
    else (if Named(fields, ms[0].key) then [] else [UnexpectedProblem(ms[0].key)]) + UnexpectedKeys(fields, ms[1..])
  }

  /** Every violation of the schema by a value, in the order of the schema. */
  function Violations(d: Def, v: Value): seq<Problem>
    decreases d, 0
  {
    match d
    case Plain(k, item) => KindProblems(k, item, v)
    case AnyType(item) => if v == Nil then [MissingProblem(item)] else []
    case ArrayOf(item, contents) =>
      if v.Array? then ItemsViolations(contents, v.items) else KindProblems(ArrayKind, item, v)
    case ObjectOf(item, fields) =>
      if v.Object? then FieldsViolations(fields, v.members) + UnexpectedKeys(fields, v.members)
      else KindProblems(ObjectKind, item, v)
    case Nullable(inner) => if v == Null then [] else Violations(inner, v)
    case Optional(inner) => if v == Nil then [] else Violations(inner, v)
    case WithDefault(inner, value) => Violations(inner, if v == Nil then value else v)
  }

  function ItemsViolations(d: Def, items: seq<Value>): seq<Problem>
    decreases d, |items|
  {
    if items == [] then [] else Violations(d, items[0]) + ItemsViolations(d, items[1..])
  }

  function FieldsViolations(fields: seq<Def>, ms: seq<Member>): seq<Problem>
    decreases fields, 0
  {
    if fields == [] then []
    else Violations(fields[0], Lookup(ms, GetItem(fields[0]))) + FieldsViolations(fields[1..], ms)
  }

  // ---- conformance ----

  predicate Conforms(d: Def, v: Value)
    decreases d
  {
    match d
    case Plain(k, _) => v != Nil && KindOf(v) == k
    case AnyType(_) => v != Nil
    case ArrayOf(_, contents) => v.Array? && forall i :: 0 <= i < |v.items| ==> Conforms(contents, v.items[i])
    case ObjectOf(_, fields) =>
      && v.Object?
      && (forall j :: 0 <= j < |fields| ==> Conforms(fields[j], Lookup(v.members, GetItem(fields[j]))))
      && (forall m :: m in v.members ==> exists j :: 0 <= j < |fields| && GetItem(fields[j]) == m.key)
    case Nullable(inner) => v == Null || Conforms(inner, v)
    case Optional(inner) => v == Nil || Conforms(inner, v)
    case WithDefault(inner, value) => Conforms(inner, if v == Nil then value else v)
  }

  // ---- what the validator leaves behind ----

  function Filled(d: Def, v: Value): Value
    decreases d, 0
  {
    match d
    case Plain(_, _) => v
    case AnyType(_) => v
    case ArrayOf(_, contents) => if v.Array? then Array(ItemsFilled(contents, v.items)) else v
    case ObjectOf(_, fields) => if v.Object? then Object(FieldsFilled(fields, v.members)) else v
    case Nullable(inner) => if v == Null then v else Filled(inner, v)
    case Optional(inner) => if v == Nil then v else Filled(inner, v)
    case WithDefault(inner, value) => Filled(inner, if v == Nil then value else v)
  }

  function ItemsFilled(d: Def, items: seq<Value>): (r: seq<Value>)
    ensures |r| == |items|
    decreases d, |items|
  {
    if items == [] then [] else [Filled(d, items[0])] + ItemsFilled(d, items[1..])
  }

  function FieldsFilled(fields: seq<Def>, ms: seq<Member>): seq<Member>
    decreases fields, 0
  {
    if fields == [] then ms
    else
      var k := GetItem(fields[0]);
      FieldsFilled(fields[1..], Insert(ms, k, Filled(fields[0], Lookup(ms, k))))
  }

  // ---- what the validator reports ----

  /** As Violations, but every field is looked up in the object as the fields before it have left
      it, which is the same unless two fields share a name. */
  function Reported(d: Def, v: Value): seq<Problem>
    decreases d, 0
  {
    match d
    case ArrayOf(item, contents) =>
      if v.Array? then ReportedItems(contents, v.items) else KindProblems(ArrayKind, item, v)
    case ObjectOf(item, fields) =>
      if v.Object? then ReportedFields(fields, v.members) + UnexpectedKeys(fields, FieldsFilled(fields, v.members))
      else KindProblems(ObjectKind, item, v)
    case Nullable(inner) => if v == Null then [] else Reported(inner, v)
    case Optional(inner) => if v == Nil then [] else Reported(inner, v)
    case WithDefault(inner, value) => Reported(inner, if v == Nil then value else v)
    case _ => Violations(d, v)
  }

  function ReportedItems(d: Def, items: seq<Value>): seq<Problem>
    decreases d, |items|
  {
    if items == [] then [] else Reported(d, items[0]) + ReportedItems(d, items[1..])
  }

  function ReportedFields(fields: seq<Def>, ms: seq<Member>): seq<Problem>
    decreases fields, 0
  {
    if fields == [] then []
    else
      var k := GetItem(fields[0]);
      var x := Lookup(ms, k);
      Reported(fields[0], x) + ReportedFields(fields[1..], Insert(ms, k, Filled(fields[0], x)))
  }

  // ---- the validator ----

  class Diagnostics {
    var problems: seq<Problem>

    constructor ()
      ensures problems == []
    {
      problems := [];
    }

    method AddProblem(p: Problem)
      modifies this
      ensures problems == old(problems) + [p]
    {
      problems := problems + [p];
    }
  }

  method CheckKind(diag: Diagnostics, k: Kind, item: string, v: Value) returns (ok: bool)
    modifies diag
    ensures diag.problems == old(diag.problems) + KindProblems(k, item, v)
    ensures ok <==> KindProblems(k, item, v) == []
    ensures ok <==> v != Nil && OfKind(k, v)
    ensures !ok ==> exists p :: Misfit(k, item, v, p) && diag.problems == old(diag.problems) + [p]
  {
    KindReport(k, item, v);
    if v == Nil {
      diag.AddProblem(MissingProblem(item));
      return false;
    } else if KindOf(v) != k {
      diag.AddProblem(TypeProblem(item, k, KindOf(v)));
      return false;
    } else {
      return true;
    }
  }

  /** Validates a value in place: `out` is what the reference then holds. */
  method Check(diag: Diagnostics, d: Def, v: Value) returns (ok: bool, out: Value)
    modifies diag
    ensures diag.problems == old(diag.problems) + Reported(d, v)
    ensures ok <==> Reported(d, v) == []
    ensures out == Filled(d, v)
    decreases d, 0
  {
    out := v;
    match d
    case Plain(k, item) =>
      ok := CheckKind(diag, k, item, v);
    case AnyType(item) =>
      ok := v != Nil;
      if !ok { diag.AddProblem(MissingProblem(item)); }
    case ArrayOf(item, contents) =>
      ok, out := CheckArray(diag, item, contents, v);
    case ObjectOf(item, fields) =>
      ok, out := CheckObject(diag, item, fields, v);
    case Nullable(inner) =>
      if v == Null { ok := true; } else { ok, out := Check(diag, inner, v); }
    case Optional(inner) =>
      if v == Nil { ok := true; } else { ok, out := Check(diag, inner, v); }
    case WithDefault(inner, value) =>
      if v == Nil { out := value; }
      ok, out := Check(diag, inner, out);
  }

  method CheckArray(diag: Diagnostics, item: string, contents: Def, v: Value) returns (ok: bool, out: Value)
    modifies diag
    ensures diag.problems == old(diag.problems) + Reported(ArrayOf(item, contents), v)
    ensures ok <==> Reported(ArrayOf(item, contents), v) == []
    ensures out == Filled(ArrayOf(item, contents), v)
    decreases contents, 3
  {
    out := v;
    ok := CheckKind(diag, ArrayKind, item, v);
    if ok {
      var items;
      ok, items := CheckItems(diag, contents, v.items);
      out := Array(items);
    }
  }

  method CheckItems(diag: Diagnostics, d: Def, items: seq<Value>) returns (ok: bool, out: seq<Value>)
    modifies diag
    ensures diag.problems == old(diag.problems) + ReportedItems(d, items)
    ensures ok <==> ReportedItems(d, items) == []
    ensures out == ItemsFilled(d, items)
    decreases d, 2
  {
    ok, out := true, items;
    ghost var done, sofar := ItemsFilled(d, items), [];
    HalfEnds(done, items);
    var i := 0;
    while i < |items|
      invariant 0 <= i <= |items| && out == Half(done, items, i) && sofar == ReportedItems(d, items[..i])
      invariant diag.problems == old(diag.problems) + sofar && (ok <==> sofar == [])
    {
      ghost var one := Reported(d, items[i]);
      var good;
      good, out := CheckAt(diag, d, items, out, i);
      assert ReportedItems(d, items[..i + 1]) == sofar + one by { ItemsGrow(d, items, i); }
      Regroup(old(diag.problems), sofar, one);
      ok := ok && good;
      sofar := sofar + one;
      i := i + 1;
    }
  }

  /** Validates the i-th element in its place. */
  method CheckAt(diag: Diagnostics, d: Def, ghost items: seq<Value>, arr: seq<Value>, i: nat)
    returns (ok: bool, out: seq<Value>)
    requires i < |items| && arr == Half(ItemsFilled(d, items), items, i)
    modifies diag
    ensures diag.problems == old(diag.problems) + Reported(d, items[i])
    ensures ok <==> Reported(d, items[i]) == []
    ensures out == Half(ItemsFilled(d, items), items, i + 1)
    decreases d, 1
  {
    HalfStep(ItemsFilled(d, items), items, i);
    ItemsGrow(d, items, i);
    var x;
    ok, x := Check(diag, d, arr[i]);
    out := arr[i := x];
  }

  /** The items up to i as the validator leaves them, the others as they were. */
  ghost function Half(done: seq<Value>, items: seq<Value>, i: nat): seq<Value>
    requires i <= |items| == |done|
  {
    done[..i] + items[i..]
  }

  lemma HalfStep(done: seq<Value>, items: seq<Value>, i: nat)
    requires i < |items| == |done|
    ensures Half(done, items, i)[i] == items[i]
    ensures Half(done, items, i)[i := done[i]] == Half(done, items, i + 1)
  {
  }

  lemma HalfEnds(done: seq<Value>, items: seq<Value>)
    requires |items| == |done|
    ensures items[..|items|] == items && Half(done, items, |items|) == done
    ensures items[..0] == [] && Half(done, items, 0) == items
  {
  }

  lemma Regroup<T>(a: seq<T>, b: seq<T>, c: seq<T>)
    ensures (a + b) + c == a + (b + c)
  {
  }

  lemma {:induction false} ItemsGrow(d: Def, items: seq<Value>, i: nat)
    requires i < |items|
    ensures ReportedItems(d, items[..i + 1]) == ReportedItems(d, items[..i]) + Reported(d, items[i])
    ensures ItemsFilled(d, items)[i] == Filled(d, items[i])
    decreases i
  {
    if i == 0 {
      assert items[..1] == [items[0]] && [items[0]][1..] == [];
    } else {
      assert items[..i + 1][1..] == items[1..][..i] && items[..i][1..] == items[1..][..i - 1];
      ItemsGrow(d, items[1..], i - 1);
    }
  }

  method CheckObject(diag: Diagnostics, item: string, fields: seq<Def>, v: Value) returns (ok: bool, out: Value)
    modifies diag
    ensures diag.problems == old(diag.problems) + Reported(ObjectOf(item, fields), v)
    ensures ok <==> Reported(ObjectOf(item, fields), v) == []
    ensures out == Filled(ObjectOf(item, fields), v)
    decreases fields, 1
  {
    out := v;
    ok := CheckKind(diag, ObjectKind, item, v);
    if ok {
      var members;
      ok, members := CheckFields(diag, fields, v.members);
      var known := CheckKeys(diag, fields, members);
      ok := ok && known;
      out := Object(members);
      assert Reported(ObjectOf(item, fields), v) == ReportedFields(fields, v.members) + UnexpectedKeys(fields, members);
    }
  }

  method CheckFields(diag: Diagnostics, fields: seq<Def>, ms: seq<Member>) returns (ok: bool, out: seq<Member>)
    modifies diag
    ensures diag.problems == old(diag.problems) + ReportedFields(fields, ms)
    ensures ok <==> ReportedFields(fields, ms) == []
    ensures out == FieldsFilled(fields, ms)
    decreases fields, 0
  {
    if fields == [] { return true, ms; }
    var k := GetItem(fields[0]);
    var good, x := Check(diag, fields[0], Lookup(ms, k));
    ok, out := CheckFields(diag, fields[1..], Insert(ms, k, x));
    ok := ok && good;
  }

  method CheckKeys(diag: Diagnostics, fields: seq<Def>, ms: seq<Member>) returns (ok: bool)
    modifies diag
    ensures diag.problems == old(diag.problems) + UnexpectedKeys(fields, ms)
    ensures ok <==> UnexpectedKeys(fields, ms) == []
  {
    ok := true;
    var i := 0;
    assert ms[0..] == ms;
    while i < |ms|
      invariant 0 <= i <= |ms|
      invariant diag.problems + UnexpectedKeys(fields, ms[i..]) == old(diag.problems) + UnexpectedKeys(fields, ms)
      invariant ok && UnexpectedKeys(fields, ms[i..]) == [] <==> UnexpectedKeys(fields, ms) == []
    {
      assert ms[i..][0] == ms[i] && ms[i..][1..] == ms[i + 1..];
      if !Named(fields, ms[i].key) {
        diag.AddProblem(UnexpectedProblem(ms[i].key));
        ok := false;
      }
      i := i + 1;
    }
  }
}
