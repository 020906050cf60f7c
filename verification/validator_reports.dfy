/** Which problems a report holds, and for which parts of a value: the texts and codes written out. */
module ValidatorReports {
  import opened Json
  import opened Validator
  import opened ValidatorLaws
  import opened ValidatorParams

  // ---- where a definition meets a value ----

  /** A definition without its wrappers. */
  function Core(d: Def): (c: Def)
    ensures c.Plain? || c.AnyType? || c.ArrayOf? || c.ObjectOf?
  {
    match d
    case Nullable(inner) => Core(inner)
    case Optional(inner) => Core(inner)
    case WithDefault(inner, _) => Core(inner)
    case _ => d
  }

  /** What a field of an object is looked up as. */
  function Field(fields: seq<Def>, ms: seq<Member>, j: nat): Value
    requires j < |fields|
  {
    Lookup(ms, Core(fields[j]).item)
  }

  /** Validating `v` by `d` comes to validating `x` by `leaf`, which has no wrapper. */
  ghost predicate Meets(d: Def, v: Value, leaf: Def, x: Value)
    decreases d
  {
    match d
    case Nullable(inner) => v != Null && Meets(inner, v, leaf, x)
    case Optional(inner) => v != Nil && Meets(inner, v, leaf, x)
    case WithDefault(inner, value) => Meets(inner, if v == Nil then value else v, leaf, x)
    case ArrayOf(_, contents) =>
      (leaf == d && x == v) || (v.Array? && exists i :: 0 <= i < |v.items| && Meets(contents, v.items[i], leaf, x))
    case ObjectOf(_, fields) =>
      || (leaf == d && x == v)
      || (v.Object? && exists j :: 0 <= j < |fields| && Meets(fields[j], Field(fields, v.members, j), leaf, x))
    case _ => leaf == d && x == v
  }

  /** What there is to say of a value met by a definition without a wrapper. */
  ghost predicate Complaint(leaf: Def, x: Value, p: Problem)
  {
    match leaf
    case Plain(k, item) => Misfit(k, item, x, p)
    case AnyType(item) => x == Nil && p == Problem(item, MustBePresent, "Item " + item + " must be present.")
    case ArrayOf(item, _) => Misfit(ArrayKind, item, x, p)
    case ObjectOf(item, fields) => Misfit(ObjectKind, item, x, p) || Unasked(fields, x, p)
    case _ => false
  }

  /** A member that no field asks for. */
  ghost predicate Unasked(fields: seq<Def>, x: Value, p: Problem)
  {
    && x.Object?
    && exists m ::
         && m in x.members && (forall f :: f in fields ==> Core(f).item != m.key)
         && p == Problem(m.key, UnexpectedParam, "Object does not have item " + m.key)
  }

  // ---- the problems of one definition ----

  lemma {:induction false} ItemIsCore(d: Def)
    ensures GetItem(d) == Core(d).item
  {
    match d
    case Nullable(inner) => ItemIsCore(inner);
    case Optional(inner) => ItemIsCore(inner);
    case WithDefault(inner, _) => ItemIsCore(inner);
    case _ =>
  }

  lemma {:induction false} NamedIsAsked(fields: seq<Def>, key: string)
    ensures Named(fields, key) <==> exists f :: f in fields && Core(f).item == key
  {
    if fields != [] {
      ItemIsCore(fields[0]);
      NamedIsAsked(fields[1..], key);
      assert fields == [fields[0]] + fields[1..];
    }
  }

  lemma {:induction false} KeysReport(fields: seq<Def>, ms: seq<Member>, p: Problem)
    ensures p in UnexpectedKeys(fields, ms) <==> Unasked(fields, Object(ms), p)
  {
    if ms != [] {
      NamedIsAsked(fields, ms[0].key);
      KeysReport(fields, ms[1..], p);
      assert ms == [ms[0]] + ms[1..];
    }
  }

  // ---- the whole report ----

  lemma {:induction false} ItemsReport(c: Def, items: seq<Value>, p: Problem)
    ensures p in ItemsViolations(c, items) <==> exists i :: 0 <= i < |items| && p in Violations(c, items[i])
    decreases |items|
  {
    if items != [] {
      ItemsReport(c, items[1..], p);
      assert forall i :: 0 < i < |items| ==> items[i] == items[1..][i - 1];
    }
  }

  lemma {:induction false} FieldsReport(fields: seq<Def>, ms: seq<Member>, p: Problem)
    ensures p in FieldsViolations(fields, ms) <==>
      exists j :: 0 <= j < |fields| && p in Violations(fields[j], Field(fields, ms, j))
    decreases |fields|
  {
    if fields != [] {
      ItemIsCore(fields[0]);
      FieldsReport(fields[1..], ms, p);
      assert forall j :: 0 < j < |fields| ==> fields[j] == fields[1..][j - 1];
    }
  }

  /** Some part of the value is met by a definition that complains of it. */
  ghost predicate Complained(d: Def, v: Value, p: Problem)
  {
    exists leaf, x :: Meets(d, v, leaf, x) && Complaint(leaf, x, p)
  }

  /** A problem is a violation of a schema if and only if the schema meets a part of the value that is
      missing, null, of another type or not asked for, and the problem says just that of it. */
  lemma {:induction false} ViolationsAreComplaints(d: Def, v: Value, p: Problem)
    ensures p in Violations(d, v) <==> Complained(d, v, p)
    decreases d
  {
    match d
    case Plain(k, item) =>
      KindReport(k, item, v);
      assert Meets(d, v, d, v);
    case AnyType(item) => assert Meets(d, v, d, v);
    case ArrayOf(item, contents) => ArrayComplaints(d, v, p);
    case ObjectOf(item, fields) => ObjectComplaints(d, v, p);
    case Nullable(inner) => ViolationsAreComplaints(inner, v, p);
    case Optional(inner) => ViolationsAreComplaints(inner, v, p);
    case WithDefault(inner, value) => ViolationsAreComplaints(inner, if v == Nil then value else v, p);
  }

  /** Of a value without parts, or of another type than the definition has, at most one problem is reported. */
  lemma {:induction false} OneProblemEach(d: Def, v: Value)
    ensures Core(d).Plain? || Core(d).AnyType? ==> |Violations(d, v)| <= 1
    ensures d.ArrayOf? && !v.Array? ==> |Violations(d, v)| <= 1
    ensures d.ObjectOf? && !v.Object? ==> |Violations(d, v)| <= 1
    decreases d
  {
    match d
    case Nullable(inner) => OneProblemEach(inner, v);
    case Optional(inner) => OneProblemEach(inner, v);
    case WithDefault(inner, value) => OneProblemEach(inner, if v == Nil then value else v);
    case _ =>
  }

  /** A complaint about a part is one about the whole. */
  lemma PartComplains(d: Def, v: Value, part: Def, x: Value, p: Problem)
    requires Complained(part, x, p) && forall leaf, y :: Meets(part, x, leaf, y) ==> Meets(d, v, leaf, y)
    ensures Complained(d, v, p)
  {
    var leaf, y :| Meets(part, x, leaf, y) && Complaint(leaf, y, p);
    assert Meets(d, v, leaf, y);
  }

  /** A complaint about an array is one about the array itself or about an element. */
  lemma ArrayPart(d: Def, v: Value, p: Problem) returns (i: nat)
    requires d.ArrayOf? && Complained(d, v, p) && !Complaint(d, v, p)
    ensures v.Array? && i < |v.items| && Complained(d.contents, v.items[i], p)
  {
    var leaf, x :| Meets(d, v, leaf, x) && Complaint(leaf, x, p);
    i :| 0 <= i < |v.items| && Meets(d.contents, v.items[i], leaf, x);
  }

  lemma {:induction false} ArrayComplaints(d: Def, v: Value, p: Problem)
    requires d.ArrayOf?
    ensures p in Violations(d, v) <==> Complained(d, v, p)
    decreases d, 0
  {
    KindReport(ArrayKind, d.item, v);
    assert Meets(d, v, d, v);
    if v.Array? {
      ItemsReport(d.contents, v.items, p);
      forall i | 0 <= i < |v.items|
        ensures p in Violations(d.contents, v.items[i]) <==> Complained(d.contents, v.items[i], p)
      {
        ViolationsAreComplaints(d.contents, v.items[i], p);
      }
      if i: nat :| i < |v.items| && Complained(d.contents, v.items[i], p) {
        PartComplains(d, v, d.contents, v.items[i], p);
      }
    }
    if Complained(d, v, p) && !Complaint(d, v, p) { var i := ArrayPart(d, v, p); }
  }

  lemma ObjectPart(d: Def, v: Value, p: Problem) returns (j: nat)
    requires d.ObjectOf? && Complained(d, v, p) && !Complaint(d, v, p)
    ensures v.Object? && j < |d.fields| && Complained(d.fields[j], Field(d.fields, v.members, j), p)
  {
    var leaf, x :| Meets(d, v, leaf, x) && Complaint(leaf, x, p);
    j :| 0 <= j < |d.fields| && Meets(d.fields[j], Field(d.fields, v.members, j), leaf, x);
  }

  lemma {:induction false} ObjectComplaints(d: Def, v: Value, p: Problem)
    requires d.ObjectOf?
    ensures p in Violations(d, v) <==> Complained(d, v, p)
    decreases d, 0
  {
    KindReport(ObjectKind, d.item, v);
    assert Meets(d, v, d, v);
    if v.Object? {
      var fields, ms := d.fields, v.members;
      FieldsReport(fields, ms, p);
      KeysReport(fields, ms, p);
      forall j | 0 <= j < |fields|
        ensures p in Violations(fields[j], Field(fields, ms, j)) <==> Complained(fields[j], Field(fields, ms, j), p)
      {
        ViolationsAreComplaints(fields[j], Field(fields, ms, j), p);
      }
      if j: nat :| j < |fields| && Complained(fields[j], Field(fields, ms, j), p) {
        PartComplains(d, v, fields[j], Field(fields, ms, j), p);
      }
    }
    if Complained(d, v, p) && !Complaint(d, v, p) { var j := ObjectPart(d, v, p); }
  }

  // ---- a call's report ----

  /** The argument passed for the j-th parameter, or none. */
  function Passed(args: seq<Value>, j: nat): Value { if j < |args| then args[j] else Nil }

  lemma {:induction false} ArgsReport(params: seq<Def>, args: seq<Value>, i: nat, p: Problem)
    requires i <= |params|
    ensures p in ArgsViolations(params, args, i) <==>
      exists j :: i <= j < |params| && p in Violations(params[j], Passed(args, j))
    decreases |params| - i
  {
    if i < |params| {
      var first, rest := Violations(params[i], Passed(args, i)), ArgsViolations(params, args, i + 1);
      ArgsReport(params, args, i + 1, p);
      assert ArgsViolations(params, args, i) == first + rest;
      assert p in first + rest <==> p in first || p in rest;
    }
  }

  /** What a call is refused with: the complaints of its parameters about the arguments passed for
      them, or about none; and, when there are too many, one problem with both counts. */
  lemma CallReport(params: seq<Def>, args: seq<Value>, p: Problem)
    requires ParamsHideNothing(params) && OrderedArgs(args)
    ensures p in ArgsReported(params, args, 0) + TooMany(params, args) <==>
      || (exists j :: 0 <= j < |params| && Complained(params[j], Passed(args, j), p))
      || (|args| > |params| && p == Problem("", UnexpectedParam,
            "Function accepts " + Decimal(|params|) + " arguments, " + Decimal(|args|) + " given."))
  {
    ReportsAreViolations(params, args, 0);
    ArgsReport(params, args, 0, p);
    forall j | 0 <= j < |params|
      ensures p in Violations(params[j], Passed(args, j)) <==> Complained(params[j], Passed(args, j), p)
    {
      ViolationsAreComplaints(params[j], Passed(args, j), p);
    }
  }

  // ---- the order of the problems ----

  lemma {:induction false} FieldsSplit(fields: seq<Def>, ms: seq<Member>, j: nat)
    requires j <= |fields|
    ensures FieldsViolations(fields, ms) == FieldsViolations(fields[..j], ms) + FieldsViolations(fields[j..], ms)
    decreases j
  {
    if j == 0 {
      assert fields[..0] == [] && fields[0..] == fields;
    } else {
      var head, tail := fields[..j], fields[j..];
      FieldsSplit(fields[1..], ms, j - 1);
      assert head[1..] == fields[1..][..j - 1] && tail == fields[1..][j - 1..] && head[0] == fields[0];
    }
  }

  lemma {:induction false} ItemsSplit(c: Def, items: seq<Value>, j: nat)
    requires j <= |items|
    ensures ItemsViolations(c, items) == ItemsViolations(c, items[..j]) + ItemsViolations(c, items[j..])
    decreases j
  {
    if j == 0 {
      assert items[..0] == [] && items[0..] == items;
    } else {
      ItemsSplit(c, items[1..], j - 1);
      assert items[..j][1..] == items[1..][..j - 1] && items[j..] == items[1..][j - 1..];
    }
  }

  lemma FieldsComplain(fields: seq<Def>, ms: seq<Member>, p: Problem)
    ensures p in FieldsViolations(fields, ms) <==>
      exists i :: 0 <= i < |fields| && Complained(fields[i], Field(fields, ms, i), p)
  {
    FieldsReport(fields, ms, p);
    forall i | 0 <= i < |fields|
      ensures p in Violations(fields[i], Field(fields, ms, i)) <==> Complained(fields[i], Field(fields, ms, i), p)
    {
      ViolationsAreComplaints(fields[i], Field(fields, ms, i), p);
    }
  }

  lemma ItemsComplain(c: Def, items: seq<Value>, p: Problem)
    ensures p in ItemsViolations(c, items) <==> exists i :: 0 <= i < |items| && Complained(c, items[i], p)
  {
    ItemsReport(c, items, p);
    forall i | 0 <= i < |items| ensures p in Violations(c, items[i]) <==> Complained(c, items[i], p) {
      ViolationsAreComplaints(c, items[i], p);
    }
  }

  /** What some field from `i` on and before `j` complains of. */
  ghost predicate FieldComplains(fields: seq<Def>, ms: seq<Member>, i: nat, j: nat, p: Problem)
  {
    exists k :: i <= k < j && k < |fields| && Complained(fields[k], Field(fields, ms, k), p)
  }

  lemma SomeFieldsComplain(fields: seq<Def>, ms: seq<Member>, i: nat, j: nat, p: Problem)
    requires i <= j <= |fields|
    ensures p in FieldsViolations(fields[i..j], ms) <==> FieldComplains(fields, ms, i, j, p)
  {
    var some := fields[i..j];
    FieldsComplain(some, ms, p);
    assert forall k :: 0 <= k < |some| ==> some[k] == fields[i + k];
    if FieldComplains(fields, ms, i, j, p) {
      var k :| i <= k < j && k < |fields| && Complained(fields[k], Field(fields, ms, k), p);
      assert Complained(some[k - i], Field(some, ms, k - i), p);
    }
  }

  /** What is to be said of some item from `i` on and before `j`. */
  ghost predicate ItemComplains(c: Def, items: seq<Value>, i: nat, j: nat, p: Problem)
  {
    exists k :: i <= k < j && k < |items| && Complained(c, items[k], p)
  }

  lemma SomeItemsComplain(c: Def, items: seq<Value>, i: nat, j: nat, p: Problem)
    requires i <= j <= |items|
    ensures p in ItemsViolations(c, items[i..j]) <==> ItemComplains(c, items, i, j, p)
  {
    var some := items[i..j];
    ItemsComplain(c, some, p);
    assert forall k :: 0 <= k < |some| ==> some[k] == items[i + k];
    if ItemComplains(c, items, i, j, p) {
      var k :| i <= k < j && k < |items| && Complained(c, items[k], p);
      assert Complained(c, some[k - i], p);
    }
  }

  ghost predicate KeysRise(ps: seq<Problem>)
  {
    forall a, b :: 0 <= a < b < |ps| ==> Less(ps[a].item, ps[b].item)
  }

  ghost predicate AllFrom(key: string, ps: seq<Problem>)
  {
    forall a :: 0 <= a < |ps| ==> ps[a].item == key || Less(key, ps[a].item)
  }

  ghost predicate AllAfter(key: string, ps: seq<Problem>)
  {
    forall a :: 0 <= a < |ps| ==> Less(key, ps[a].item)
  }

  lemma FromIsAfter(k: string, next: string, ps: seq<Problem>)
    requires Less(k, next) && AllFrom(next, ps)
    ensures AllAfter(k, ps)
  {
    forall a | 0 <= a < |ps| ensures Less(k, ps[a].item) {
      if ps[a].item != next { LessIsTransitive(k, next, ps[a].item); }
    }
  }

  lemma {:induction false} KeysAscend(fields: seq<Def>, ms: seq<Member>)
    requires Ascending(ms)
    ensures var r := UnexpectedKeys(fields, ms); KeysRise(r) && if ms == [] then r == [] else AllFrom(ms[0].key, r)
    decreases |ms|
  {
    if ms != [] {
      var k, rest, one := ms[0].key, UnexpectedKeys(fields, ms[1..]), UnexpectedProblem(ms[0].key);
      KeysAscend(fields, ms[1..]);
      assert AllAfter(k, rest) by { if |ms| > 1 { FromIsAfter(k, ms[1].key, rest); } }
      AfterIsFrom(k, rest);
      OneMoreRises(k, one, rest);
      OneMoreFrom(k, one, rest);
    }
  }

  lemma OneMoreRises(k: string, one: Problem, rest: seq<Problem>)
    requires KeysRise(rest) && AllAfter(k, rest) && one.item == k
    ensures KeysRise([one] + rest)
  {
    var all := [one] + rest;
    forall a, b | 0 <= a < b < |all| ensures Less(all[a].item, all[b].item) {
      assert all[b] == rest[b - 1] && all[a] == if a == 0 then one else rest[a - 1];
    }
  }

  lemma OneMoreFrom(k: string, one: Problem, rest: seq<Problem>)
    requires AllAfter(k, rest) && one.item == k
    ensures AllFrom(k, [one] + rest)
  {
  }

  lemma AfterIsFrom(k: string, rest: seq<Problem>)
    requires AllAfter(k, rest)
    ensures AllFrom(k, rest) && [] + rest == rest
  {
  }

  /** The problems of an object's fields come in the order of the fields, and after them, one for each
      and in the order of the keys, those of the members that no field asks for. */
  lemma ObjectInOrder(item: string, fields: seq<Def>, ms: seq<Member>, j: nat)
    returns (front: seq<Problem>, back: seq<Problem>, others: seq<Problem>)
    requires j <= |fields| && Ascending(ms)
    ensures Violations(ObjectOf(item, fields), Object(ms)) == front + back + others
    ensures forall p :: p in front <==> FieldComplains(fields, ms, 0, j, p)
    ensures forall p :: p in back <==> FieldComplains(fields, ms, j, |fields|, p)
    ensures forall p :: p in others <==> Unasked(fields, Object(ms), p)
    ensures KeysRise(others)
  {
    front, back := FieldsViolations(fields[0..j], ms), FieldsViolations(fields[j..|fields|], ms);
    others := UnexpectedKeys(fields, ms);
    FieldsSplit(fields, ms, j);
    assert fields[0..j] == fields[..j] && fields[j..|fields|] == fields[j..];
    KeysAscend(fields, ms);
    forall p ensures p in front <==> FieldComplains(fields, ms, 0, j, p) {
      SomeFieldsComplain(fields, ms, 0, j, p);
    }
    forall p ensures p in back <==> FieldComplains(fields, ms, j, |fields|, p) {
      SomeFieldsComplain(fields, ms, j, |fields|, p);
    }
    forall p ensures p in others <==> Unasked(fields, Object(ms), p) { KeysReport(fields, ms, p); }
  }

  /** Those of an array's items come in the order of the items. */
  lemma ArrayInOrder(item: string, contents: Def, items: seq<Value>, j: nat)
    returns (front: seq<Problem>, back: seq<Problem>)
    requires j <= |items|
    ensures Violations(ArrayOf(item, contents), Array(items)) == front + back
    ensures forall p :: p in front <==> ItemComplains(contents, items, 0, j, p)
    ensures forall p :: p in back <==> ItemComplains(contents, items, j, |items|, p)
  {
    front, back := ItemsViolations(contents, items[0..j]), ItemsViolations(contents, items[j..|items|]);
    ItemsSplit(contents, items, j);
    assert items[0..j] == items[..j] && items[j..|items|] == items[j..];
    forall p ensures p in front <==> ItemComplains(contents, items, 0, j, p) {
      SomeItemsComplain(contents, items, 0, j, p);
    }
    forall p ensures p in back <==> ItemComplains(contents, items, j, |items|, p) {
      SomeItemsComplain(contents, items, j, |items|, p);
    }
  }

  lemma {:induction false} ArgsSplit(params: seq<Def>, args: seq<Value>, i: nat, j: nat) returns (front: seq<Problem>)
    requires i <= j <= |params|
    ensures ArgsViolations(params, args, i) == front + ArgsViolations(params, args, j)
    ensures forall p :: p in front <==> exists k :: i <= k < j && p in Violations(params[k], Passed(args, k))
    decreases j - i
  {
    if i == j {
      front := [];
    } else {
      var first := Violations(params[i], Passed(args, i));
      var more := ArgsSplit(params, args, i + 1, j);
      front := first + more;
      Regroup(first, more, ArgsViolations(params, args, j));
    }
  }

  /** And those of a call in the order of its parameters, the one about superfluous arguments last. */
  lemma CallInOrder(params: seq<Def>, args: seq<Value>, j: nat) returns (front: seq<Problem>, back: seq<Problem>)
    requires ParamsHideNothing(params) && OrderedArgs(args) && j <= |params|
    ensures ArgsReported(params, args, 0) + TooMany(params, args) == front + back
    ensures forall p :: p in front <==> exists k :: 0 <= k < j && Complained(params[k], Passed(args, k), p)
    ensures |args| > |params| ==> back != [] && back[|back| - 1] == Problem("", UnexpectedParam,
      "Function accepts " + Decimal(|params|) + " arguments, " + Decimal(|args|) + " given.")
  {
    ReportsAreViolations(params, args, 0);
    front := ArgsSplit(params, args, 0, j);
    back := ArgsViolations(params, args, j) + TooMany(params, args);
    Regroup(front, ArgsViolations(params, args, j), TooMany(params, args));
    forall p, k | 0 <= k < j
      ensures p in Violations(params[k], Passed(args, k)) <==> Complained(params[k], Passed(args, k), p)
    {
      ViolationsAreComplaints(params[k], Passed(args, k), p);
    }
  }
}
