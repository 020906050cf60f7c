/** What it costs to name a field twice: exactly which definitions may stand before another one of
    their name. */
module ValidatorRepeats {
  import opened Json
  import opened Validator
  import opened ValidatorLaws
  import opened ValidatorParams

  // ---- two fields of one name ----

  lemma PairViolations(item: string, f: Def, later: Def, ms: seq<Member>)
    requires GetItem(f) == GetItem(later)
    ensures var x, d := Lookup(ms, GetItem(f)), ObjectOf(item, [f, later]);
      Violations(d, Object(ms)) == Violations(f, x) + Violations(later, x) + UnexpectedKeys([f, later], ms)
  {
    assert [f, later][1..] == [later] && [later][1..] == [];
    assert FieldsViolations([later], ms) == Violations(later, Lookup(ms, GetItem(f))) + [];
  }

  /** The second field is looked up in what the first has left. */
  lemma PairReported(item: string, f: Def, later: Def, ms: seq<Member>)
    requires GetItem(f) == GetItem(later) && Ascending(ms)
    ensures var x, d := Lookup(ms, GetItem(f)), ObjectOf(item, [f, later]);
      Reported(d, Object(ms)) == Reported(f, x) + Reported(later, Filled(f, x)) + UnexpectedKeys([f, later], ms)
  {
    var k, fields := GetItem(f), [f, later];
    var x := Lookup(ms, k);
    UnexpectedFilled(fields, fields, ms);
    assert ReportedFields(fields, ms) == Reported(f, x) + Reported(later, Filled(f, x)) by {
      assert fields[1..] == [later];
      InsertIsMapUpdate(ms, k, Filled(f, x), k);
      OneReported(later, Insert(ms, k, Filled(f, x)));
    }
  }

  lemma OneReported(d: Def, ms: seq<Member>)
    ensures ReportedFields([d], ms) == Reported(d, Lookup(ms, GetItem(d)))
  {
    assert [d][1..] == [];
    assert ReportedFields([d], ms) == Reported(d, Lookup(ms, GetItem(d))) + [];
  }

  // ---- telling a filled value from the original ----

  /** A value that is there and filled, and a definition that finds other violations in it then. */
  lemma {:induction false} TellsPresent(f: Def, k: string) returns (later: Def, x: Value)
    requires !KeepsPresent(f)
    ensures GetItem(later) == k && HidesNothing(later) && Ordered(x) && x != Nil && x != Null
    ensures Violations(later, x) != Violations(later, Filled(f, x))
    decreases f, 0
  {
    match f
    case ArrayOf(_, contents) =>
      later, x := Tells(contents, k);
      TellsInArray(contents, later, x, k);
      later, x := ArrayOf(k, later), Array([x]);
    case ObjectOf(_, fields) =>
      later, x := ObjectOf(k, []), Object([]);
      FieldsAdd(fields, []);
    case Nullable(inner) => later, x := TellsPresent(inner, k);
    case Optional(inner) => later, x := TellsPresent(inner, k);
    case WithDefault(inner, _) => later, x := TellsPresent(inner, k);
  }

  lemma {:induction false} Tells(f: Def, k: string) returns (later: Def, x: Value)
    requires !Keeps(f)
    ensures GetItem(later) == k && HidesNothing(later) && Ordered(x)
    ensures Violations(later, x) != Violations(later, Filled(f, x))
    decreases f, 1
  {
    if KeepsPresent(f) {
      later, x := AnyType(k), Nil;
    } else {
      later, x := TellsPresent(f, k);
    }
  }

  lemma TellsInArray(contents: Def, later: Def, x: Value, k: string)
    ensures forall item :: Filled(ArrayOf(item, contents), Array([x])) == Array([Filled(contents, x)])
    ensures forall y :: Violations(ArrayOf(k, later), Array([y])) == Violations(later, y)
  {
    assert [x][1..] == [];
    forall y ensures Violations(ArrayOf(k, later), Array([y])) == Violations(later, y) {
      assert [y][1..] == [];
      assert ItemsViolations(later, [y]) == Violations(later, y) + [];
    }
  }

  /** Whatever other definition follows it under its name, and whatever is validated, the problems
      reported are the violations by the original value. */
  ghost predicate HarmlessBefore(item: string, f: Def)
  {
    forall later, v :: HidesNothing(later) && GetItem(later) == GetItem(f) && Ordered(v) ==>
      Reported(ObjectOf(item, [f, later]), v) == Violations(ObjectOf(item, [f, later]), v)
  }

  lemma PairHidesNothing(item: string, f: Def, later: Def)
    requires HidesNothing(f) && HidesNothing(later) && Keeps(f)
    ensures HidesNothing(ObjectOf(item, [f, later]))
  {
    assert [f, later][1..] == [later] && [later][1..] == [];
  }

  /** A field may be repeated by every other one if and only if it never fills anything. */
  lemma RepeatsExactly(item: string, f: Def)
    requires HidesNothing(f)
    ensures HarmlessBefore(item, f) <==> Keeps(f)
  {
    if Keeps(f) {
      forall later, v | HidesNothing(later) && GetItem(later) == GetItem(f) && Ordered(v)
        ensures Reported(ObjectOf(item, [f, later]), v) == Violations(ObjectOf(item, [f, later]), v)
      {
        PairHidesNothing(item, f, later);
        ReportedIsViolations(ObjectOf(item, [f, later]), v);
      }
    } else {
      var later, x := Tells(f, GetItem(f));
      var ms := [Member(GetItem(f), x)];
      PairViolations(item, f, later, ms);
      PairReported(item, f, later, ms);
      ReportedIsViolations(f, x);
      FilledOrdered(f, x);
      ReportedIsViolations(later, Filled(f, x));
      MiddleDiffers(Violations(f, x), Violations(later, x), Violations(later, Filled(f, x)),
                    UnexpectedKeys([f, later], ms));
      assert Ordered(Object(ms));
    }
  }

  lemma MiddleDiffers(a: seq<Problem>, b: seq<Problem>, c: seq<Problem>, d: seq<Problem>)
    requires b != c
    ensures a + b + d != a + c + d
  {
    if |b| == |c| {
      var i :| 0 <= i < |b| && b[i] != c[i];
      assert (a + b + d)[|a| + i] != (a + c + d)[|a| + i];
    } else {
      assert |a + b + d| != |a + c + d|;
    }
  }

  // ---- the same for the verdict ----

  /** The definition never changes a value that it accepts. */
  ghost predicate KeepsAccepted(f: Def)
  {
    forall x :: Ordered(x) && Conforms(f, x) ==> Filled(f, x) == x
  }

  /** Whatever other definition follows it under its name, nothing is reported exactly when the
      original value conforms. */
  ghost predicate JudgedBefore(item: string, f: Def)
  {
    forall later, v :: HidesNothing(later) && GetItem(later) == GetItem(f) && Ordered(v) ==>
      (Reported(ObjectOf(item, [f, later]), v) == [] <==> Conforms(ObjectOf(item, [f, later]), v))
  }

  /** A field that accepts whatever is there and leaves it alone. */
  function Open(key: string): (d: Def)
    ensures GetItem(d) == key && Keeps(d) && HidesNothing(d) && forall v :: Conforms(d, v)
  {
    var inner := AnyType(key);
    assert GetItem(inner) == key && KeepsPresent(inner) && HidesNothing(inner);
    assert forall v :: Conforms(Optional(inner), v) <==> v == Nil || Conforms(inner, v);
    Optional(inner)
  }

  function OpenFields(ms: seq<Member>): (fields: seq<Def>)
    ensures |fields| == |ms| && forall j :: 0 <= j < |ms| ==> fields[j] == Open(ms[j].key)
  {
    if ms == [] then [] else [Open(ms[0].key)] + OpenFields(ms[1..])
  }

  lemma OpenNames(ms: seq<Member>, key: string)
    ensures HasField(OpenFields(ms), key) <==> HasKey(ms, key)
  {
    HasKeyMeans(ms, key);
    var fields := OpenFields(ms);
    assert forall j :: 0 <= j < |ms| ==> GetItem(fields[j]) == ms[j].key;
    if HasKey(ms, key) {
      var m :| m in ms && m.key == key;
      var j :| 0 <= j < |ms| && ms[j] == m;
      assert GetItem(fields[j]) == key;
    }
  }

  lemma {:induction false} OpenHidesNothing(ms: seq<Member>, last: seq<Def>)
    requires |last| <= 1 && forall f :: f in last ==> HidesNothing(f)
    ensures FilledLast(OpenFields(ms) + last) && forall f :: f in OpenFields(ms) + last ==> HidesNothing(f)
  {
    if ms == [] {
      assert OpenFields(ms) + last == last;
      if last != [] { assert last[1..] == []; }
    } else {
      var fields := OpenFields(ms) + last;
      OpenHidesNothing(ms[1..], last);
      assert fields == [Open(ms[0].key)] + (OpenFields(ms[1..]) + last);
      assert fields[1..] == OpenFields(ms[1..]) + last;
    }
  }

  /** An object without keys other than those of `ms`. */
  ghost predicate KeysWithin(other: seq<Member>, ms: seq<Member>)
  {
    forall m :: m in other ==> HasKey(ms, m.key)
  }

  lemma OpenAccepts(k: string, ms: seq<Member>, other: seq<Member>)
    ensures Conforms(ObjectOf(k, OpenFields(ms)), Object(other)) <==> KeysWithin(other, ms)
  {
    var fields := OpenFields(ms);
    forall m | m in other ensures HasKey(ms, m.key) <==> HasField(fields, m.key) { OpenNames(ms, m.key); }
    ObjectConformsWhen(k, fields, other);
  }

  /** What it means for an object to conform, key by key. */
  lemma ObjectConformsWhen(item: string, fields: seq<Def>, ms: seq<Member>)
    ensures Conforms(ObjectOf(item, fields), Object(ms)) <==>
      && (forall j :: 0 <= j < |fields| ==> Conforms(fields[j], Lookup(ms, GetItem(fields[j]))))
      && (forall m :: m in ms ==> HasField(fields, m.key))
  {
  }

  lemma OpenExceptAccepts(k: string, ms: seq<Member>, l: Def, other: seq<Member>)
    requires HasKey(ms, GetItem(l)) && KeysWithin(other, ms)
    ensures Conforms(ObjectOf(k, OpenFields(ms) + [l]), Object(other)) <==> Conforms(l, Lookup(other, GetItem(l)))
  {
    var fields := OpenFields(ms) + [l];
    assert fields[|ms|] == l;
    forall m | m in other ensures HasField(fields, m.key) {
      OpenNames(ms, m.key);
      var j :| 0 <= j < |ms| && GetItem(OpenFields(ms)[j]) == m.key;
      assert GetItem(fields[j]) == m.key;
    }
    forall j | 0 <= j < |ms| ensures Conforms(fields[j], Lookup(other, GetItem(fields[j]))) {
      assert fields[j] == Open(ms[j].key);
    }
    ObjectConformsWhen(k, fields, other);
  }

  // ---- telling a filled value from one that was accepted ----

  /** An object that is accepted and gains a key. */
  lemma TellsNewKey(item: string, fields: seq<Def>, ms: seq<Member>, j: nat, k: string) returns (later: Def)
    requires Proper(ObjectOf(item, fields)) && OrderedMembers(ms) && j < |fields| && !HasKey(ms, GetItem(fields[j]))
    ensures GetItem(later) == k && HidesNothing(later)
    ensures Conforms(later, Object(ms)) && !Conforms(later, Filled(ObjectOf(item, fields), Object(ms)))
  {
    var done := FieldsFilled(fields, ms);
    var name := GetItem(fields[j]);
    later := ObjectOf(k, OpenFields(ms));
    OpenHidesNothing(ms, []);
    assert OpenFields(ms) + [] == OpenFields(ms);
    OpenAccepts(k, ms, ms);
    OpenAccepts(k, ms, done);
    assert KeysWithin(ms, ms) by { forall m | m in ms ensures HasKey(ms, m.key) { HasKeyMeans(ms, m.key); } }
    ProperHidesNothing(ObjectOf(item, fields));
    FieldsFilledLookup(fields, ms, name);
    NamedMeans(fields, name);
    HasKeyMeans(done, name);
  }

  /** A member changed, and what that does to the object. */
  lemma ChangedMember(ms: seq<Member>, k: string, x: Value)
    requires OrderedMembers(ms) && HasKey(ms, k) && Ordered(x)
    ensures var changed := Insert(ms, k, x);
      && OrderedMembers(changed) && Lookup(changed, k) == x
      && (forall key :: HasKey(changed, key) <==> HasKey(ms, key))
      && (forall key :: key != k ==> Lookup(changed, key) == Lookup(ms, key))
  {
    InsertOrdered(ms, k, x);
    forall key
      ensures HasKey(Insert(ms, k, x), key) <==> HasKey(ms, key)
      ensures key != k ==> Lookup(Insert(ms, k, x), key) == Lookup(ms, key)
      ensures key == k ==> Lookup(Insert(ms, k, x), key) == x
    {
      InsertIsMapUpdate(ms, k, x, key);
    }
  }

  /** The object goes on conforming when one of its members is changed to another accepted value. */
  lemma ChangedConforms(item: string, fields: seq<Def>, ms: seq<Member>, j: nat, x: Value)
    requires Proper(ObjectOf(item, fields)) && OrderedMembers(ms) && Conforms(ObjectOf(item, fields), Object(ms))
    requires j < |fields| && HasKey(ms, GetItem(fields[j])) && Ordered(x) && Conforms(fields[j], x)
    ensures Conforms(ObjectOf(item, fields), Object(Insert(ms, GetItem(fields[j]), x)))
  {
    var k := GetItem(fields[j]);
    var changed := Insert(ms, k, x);
    ChangedMember(ms, k, x);
    forall i | 0 <= i < |fields| ensures Conforms(fields[i], Lookup(changed, GetItem(fields[i]))) {
      if i != j { DistinctApart(fields, i, j); }
    }
    forall m | m in changed ensures HasField(fields, m.key) {
      HasKeyMeans(changed, m.key);
      HasKeyMeans(ms, m.key);
    }
    ObjectConformsWhen(item, fields, changed);
  }

  lemma {:induction false} DistinctApart(fields: seq<Def>, i: nat, j: nat)
    requires DistinctNames(fields) && i < |fields| && j < |fields| && i != j
    ensures GetItem(fields[i]) != GetItem(fields[j])
  {
    if i == 0 {
      NamedMeans(fields[1..], GetItem(fields[0]));
      assert fields[1..][j - 1] == fields[j];
    } else if j == 0 {
      DistinctApart(fields, 0, i);
    } else {
      DistinctApart(fields[1..], i - 1, j - 1);
    }
  }

  /** An object in which the value under one key is told from what it is filled to. */
  lemma TellsMember(item: string, fields: seq<Def>, ms: seq<Member>, j: nat, l: Def, k: string) returns (later: Def)
    requires Proper(ObjectOf(item, fields)) && OrderedMembers(ms) && j < |fields|
    requires forall i :: 0 <= i < |fields| ==> HasKey(ms, GetItem(fields[i]))
    requires HidesNothing(l) && GetItem(l) == GetItem(fields[j])
    requires var x := Lookup(ms, GetItem(l)); Conforms(l, x) != Conforms(l, Filled(fields[j], x))
    ensures GetItem(later) == k && HidesNothing(later)
    ensures Conforms(later, Object(ms)) != Conforms(later, Filled(ObjectOf(item, fields), Object(ms)))
  {
    var done := FieldsFilled(fields, ms);
    var name := GetItem(l);
    later := ObjectOf(k, OpenFields(ms) + [l]);
    OpenHidesNothing(ms, [l]);
    ProperHidesNothing(ObjectOf(item, fields));
    FieldsFilledLookup(fields, ms, name);
    DistinctIsLast(fields, j);
    forall m | m in ms ensures HasKey(ms, m.key) { HasKeyMeans(ms, m.key); }
    forall m | m in done ensures HasKey(ms, m.key) {
      HasKeyMeans(done, m.key);
      FieldsFilledLookup(fields, ms, m.key);
      NamedMeans(fields, m.key);
    }
    OpenExceptAccepts(k, ms, l, ms);
    OpenExceptAccepts(k, ms, l, done);
  }

  lemma ElementChanges(c: Def, items: seq<Value>) returns (i: nat)
    requires ItemsFilled(c, items) != items
    ensures i < |items| && Filled(c, items[i]) != items[i]
  {
    if Filled(c, items[0]) != items[0] {
      i := 0;
    } else {
      assert items == [items[0]] + items[1..];
      i := ElementChanges(c, items[1..]);
      i := i + 1;
    }
  }

  lemma InArray(item: string, c: Def, x: Value)
    ensures Conforms(ArrayOf(item, c), Array([x])) <==> Conforms(c, x)
    ensures Filled(ArrayOf(item, c), Array([x])) == Array([Filled(c, x)])
    ensures Ordered(Array([x])) <==> Ordered(x)
  {
    assert [x][1..] == [];
    assert Array([x]).items[0] == x;
  }

  lemma {:induction false} TellsInItems(item: string, c: Def, items: seq<Value>, k: string)
    returns (later: Def, w: Value)
    requires Proper(c) && Ordered(Array(items)) && ItemsFilled(c, items) != items
    requires Conforms(ArrayOf(item, c), Array(items))
    ensures GetItem(later) == k && HidesNothing(later)
    ensures w.Array? && Ordered(w) && Conforms(ArrayOf(item, c), w)
    ensures Conforms(later, w) != Conforms(later, Filled(ArrayOf(item, c), w))
    decreases c, 1
  {
    var i := ElementChanges(c, items);
    var l, e := TellsAccepted(c, items[i], k);
    InArray(item, c, e);
    InArray(k, l, e);
    InArray(k, l, Filled(c, e));
    later, w := ArrayOf(k, l), Array([e]);
  }

  /** From a value that `f` accepts and changes: one that it accepts and changes and that some other
      definition accepts while it refuses the change, or the other way round. */
  lemma {:induction false} TellsAccepted(f: Def, x: Value, k: string) returns (later: Def, w: Value)
    requires Proper(f) && Ordered(x) && Conforms(f, x) && Filled(f, x) != x
    ensures GetItem(later) == k && HidesNothing(later)
    ensures Ordered(w) && Conforms(f, w) && w != Null && (w == Nil <==> x == Nil)
    ensures Conforms(later, w) != Conforms(later, Filled(f, w))
    decreases f, 0
  {
    if x == Nil {
      later, w := AnyType(k), Nil;
    } else {
      match f
      case ArrayOf(item, c) => later, w := TellsInItems(item, c, x.items, k);
      case ObjectOf(item, fields) => later, w := TellsInObject(item, fields, x.members, k);
      case Nullable(inner) => later, w := TellsAccepted(inner, x, k);
      case Optional(inner) => later, w := TellsAccepted(inner, x, k);
      case WithDefault(inner, _) => later, w := TellsAccepted(inner, x, k);
    }
  }

  lemma {:induction false} TellsInObject(item: string, fields: seq<Def>, ms: seq<Member>, k: string)
    returns (later: Def, w: Value)
    requires Proper(ObjectOf(item, fields)) && OrderedMembers(ms) && FieldsFilled(fields, ms) != ms
    requires Conforms(ObjectOf(item, fields), Object(ms))
    ensures GetItem(later) == k && HidesNothing(later)
    ensures w.Object? && Ordered(w) && Conforms(ObjectOf(item, fields), w)
    ensures Conforms(later, w) != Conforms(later, Filled(ObjectOf(item, fields), w))
    decreases fields
  {
    if j: nat :| j < |fields| && !HasKey(ms, GetItem(fields[j])) {
      later := TellsNewKey(item, fields, ms, j, k);
      w := Object(ms);
    } else {
      var j := FieldChanges(fields, ms);
      var name := GetItem(fields[j]);
      LookupOrdered(ms, name);
      var l, e := TellsAccepted(fields[j], Lookup(ms, name), name);
      var changed := Insert(ms, name, e);
      ChangedMember(ms, name, e);
      ChangedConforms(item, fields, ms, j, e);
      later := TellsMember(item, fields, changed, j, l, k);
      w := Object(changed);
    }
  }

  lemma FieldChanges(fields: seq<Def>, ms: seq<Member>) returns (j: nat)
    requires Ascending(ms) && FieldsFilled(fields, ms) != ms
    requires forall i :: 0 <= i < |fields| ==> HasKey(ms, GetItem(fields[i]))
    ensures j < |fields| && Filled(fields[j], Lookup(ms, GetItem(fields[j]))) != Lookup(ms, GetItem(fields[j]))
  {
    if forall f :: f in fields ==> Filled(f, Lookup(ms, GetItem(f))) == Lookup(ms, GetItem(f)) {
      FieldsFixed(fields, ms);
    }
    var f :| f in fields && Filled(f, Lookup(ms, GetItem(f))) != Lookup(ms, GetItem(f));
    j :| 0 <= j < |fields| && fields[j] == f;
  }

  /** A field may be repeated without harm to the verdict if and only if it never changes what it
      accepts. */
  lemma VerdictsExactly(item: string, f: Def)
    requires Proper(f)
    ensures JudgedBefore(item, f) <==> KeepsAccepted(f)
  {
    ProperHidesNothing(f);
    if KeepsAccepted(f) {
      forall later, v | HidesNothing(later) && GetItem(later) == GetItem(f) && Ordered(v)
        ensures Reported(ObjectOf(item, [f, later]), v) == [] <==> Conforms(ObjectOf(item, [f, later]), v)
      {
        NoViolationsIsConformance(ObjectOf(item, [f, later]), v);
        if v.Object? { AcceptedVerdicts(item, f, later, v.members); }
      }
    } else {
      var x :| Ordered(x) && Conforms(f, x) && Filled(f, x) != x;
      var later, v := TellsVerdicts(item, f, x);
      assert (Reported(ObjectOf(item, [f, later]), v) == []) != Conforms(ObjectOf(item, [f, later]), v);
    }
  }

  lemma TellsVerdicts(item: string, f: Def, x: Value) returns (later: Def, v: Value)
    requires Proper(f) && Ordered(x) && Conforms(f, x) && Filled(f, x) != x
    ensures HidesNothing(later) && GetItem(later) == GetItem(f) && Ordered(v)
    ensures (Reported(ObjectOf(item, [f, later]), v) == []) != Conforms(ObjectOf(item, [f, later]), v)
  {
    var w;
    later, w := TellsAccepted(f, x, GetItem(f));
    var ms := [Member(GetItem(f), w)];
    v := Object(ms);
    ProperHidesNothing(f);
    PairVerdicts(item, f, later, ms);
    assert Named([f, later], GetItem(f)) && ms[1..] == [];
  }

  lemma AcceptedVerdicts(item: string, f: Def, later: Def, ms: seq<Member>)
    requires HidesNothing(f) && HidesNothing(later) && GetItem(f) == GetItem(later) && OrderedMembers(ms)
    requires KeepsAccepted(f)
    ensures Reported(ObjectOf(item, [f, later]), Object(ms)) == [] <==> Conforms(ObjectOf(item, [f, later]), Object(ms))
  {
    LookupOrdered(ms, GetItem(f));
    PairVerdicts(item, f, later, ms);
  }

  /** Both verdicts on an object, in terms of the value under the repeated name. */
  lemma PairVerdicts(item: string, f: Def, later: Def, ms: seq<Member>)
    requires HidesNothing(f) && HidesNothing(later) && GetItem(f) == GetItem(later) && OrderedMembers(ms)
    ensures var x, d := Lookup(ms, GetItem(f)), ObjectOf(item, [f, later]);
      var named := UnexpectedKeys([f, later], ms) == [];
      && (Conforms(d, Object(ms)) <==> Conforms(f, x) && Conforms(later, x) && named)
      && (Reported(d, Object(ms)) == [] <==> Conforms(f, x) && Conforms(later, Filled(f, x)) && named)
  {
    var x, d := Lookup(ms, GetItem(f)), ObjectOf(item, [f, later]);
    LookupOrdered(ms, GetItem(f));
    PairViolations(item, f, later, ms);
    PairReported(item, f, later, ms);
    FilledOrdered(f, x);
    ReportedIsViolations(f, x);
    ReportedIsViolations(later, Filled(f, x));
    NoViolationsIsConformance(f, x);
    NoViolationsIsConformance(later, x);
    NoViolationsIsConformance(later, Filled(f, x));
    NoViolationsIsConformance(d, Object(ms));
  }

  // ---- what a call makes of it ----

  /** Whatever other definition follows it under its name in a parameter, a call is accepted exactly
      when its arguments conform. */
  ghost predicate CallsJudged(item: string, f: Def)
  {
    forall later, args :: HidesNothing(later) && GetItem(later) == GetItem(f) && OrderedArgs(args) ==>
      (AcceptedArgs([ObjectOf(item, [f, later])], args) <==> ArgsConform([ObjectOf(item, [f, later])], args))
  }

  lemma OneParameter(d: Def, args: seq<Value>)
    ensures AcceptedArgs([d], args) <==> |args| <= 1 && Reported(d, ArgAt(args, 0)) == []
    ensures ArgsConform([d], args) <==> |args| <= 1 && Conforms(d, ArgAt(args, 0))
  {
    assert ArgsReported([d], args, 0) == Reported(d, ArgAt(args, 0)) + [];
  }

  /** The verdict on calls is right, whatever repeats the field, if and only if the field never
      changes what it accepts. */
  lemma CallsExactly(item: string, f: Def)
    requires Proper(f)
    ensures CallsJudged(item, f) <==> KeepsAccepted(f)
  {
    VerdictsExactly(item, f);
    if JudgedBefore(item, f) {
      forall later, args | HidesNothing(later) && GetItem(later) == GetItem(f) && OrderedArgs(args)
        ensures AcceptedArgs([ObjectOf(item, [f, later])], args) <==> ArgsConform([ObjectOf(item, [f, later])], args)
      {
        OneParameter(ObjectOf(item, [f, later]), args);
        assert Ordered(ArgAt(args, 0));
      }
    } else {
      var later, v :| HidesNothing(later) && GetItem(later) == GetItem(f) && Ordered(v)
        && !(Reported(ObjectOf(item, [f, later]), v) == [] <==> Conforms(ObjectOf(item, [f, later]), v));
      OneParameter(ObjectOf(item, [f, later]), [v]);
      assert OrderedArgs([v]);
    }
  }
}
