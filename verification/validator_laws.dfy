/** What the schema validator guarantees: it reports exactly the violations of the schema, and a
    value that it has accepted stays accepted and is left alone by a second validation. */
module ValidatorLaws {
  import opened Json
  import opened Validator

  /** What every value in memory is: its objects are std::maps. */
  predicate Ordered(v: Value)
  {
    match v
    case Array(items) => forall x :: x in items ==> Ordered(x)
    case Object(members) => Ascending(members) && forall m :: m in members ==> Ordered(m.value)
    case _ => true
  }

  predicate DistinctNames(fields: seq<Def>)
  {
    fields == [] || (!Named(fields[1..], GetItem(fields[0])) && DistinctNames(fields[1..]))
  }

  /** No object schema names a field twice, and the defaults are values in memory. */
  predicate Proper(d: Def)
  {
    match d
    case Plain(_, _) => true
    case AnyType(_) => true
    case ArrayOf(_, contents) => Proper(contents)
    case ObjectOf(_, fields) => DistinctNames(fields) && forall f :: f in fields ==> Proper(f)
    case Nullable(inner) => Proper(inner)
    case Optional(inner) => Proper(inner)
    case WithDefault(inner, value) => Proper(inner) && Ordered(value)
  }

  // ---- what validation leaves alone ----

  /** Validation leaves every value alone that is there: nothing in the schema can fill a part of it. */
  predicate KeepsPresent(d: Def)
    decreases d, 0
  {
    match d
    case Plain(_, _) => true
    case AnyType(_) => true
    case ArrayOf(_, contents) => Keeps(contents)
    case ObjectOf(_, fields) => fields == []
    case Nullable(inner) => KeepsPresent(inner)
    case Optional(inner) => KeepsPresent(inner)
    case WithDefault(inner, _) => KeepsPresent(inner)
  }

  /** And it leaves a missing one missing. */
  predicate Keeps(d: Def)
    decreases d, 1
  {
    KeepsPresent(d) && Filled(d, Nil) == Nil
  }

  lemma {:induction false} KeepsAll(d: Def, v: Value)
    requires KeepsPresent(d) && v != Nil
    ensures Filled(d, v) == v
    decreases d, 0
  {
    match d
    case ArrayOf(_, contents) => if v.Array? { KeepsItems(contents, v.items); }
    case Nullable(inner) => KeepsAll(inner, v);
    case Optional(inner) => KeepsAll(inner, v);
    case WithDefault(inner, _) => KeepsAll(inner, v);
    case _ =>
  }

  lemma {:induction false} KeepsItems(d: Def, items: seq<Value>)
    requires Keeps(d)
    ensures ItemsFilled(d, items) == items
    decreases d, |items|
  {
    if items != [] {
      if items[0] != Nil { KeepsAll(d, items[0]); }
      KeepsItems(d, items[1..]);
    }
  }

  /** A value that is there and that the schema fills. */
  lemma {:induction false} FillsPresent(d: Def) returns (v: Value)
    requires !KeepsPresent(d)
    ensures v != Nil && v != Null && Filled(d, v) != v
    decreases d, 0
  {
    match d
    case ArrayOf(_, contents) =>
      var x := Nil;
      if !KeepsPresent(contents) { x := FillsPresent(contents); }
      v := Array([x]);
      assert ItemsFilled(contents, [x])[0] == Filled(contents, x);
    case ObjectOf(_, fields) =>
      v := Object([]);
      FieldsAdd(fields, []);
    case Nullable(inner) => v := FillsPresent(inner);
    case Optional(inner) => v := FillsPresent(inner);
    case WithDefault(inner, _) => v := FillsPresent(inner);
  }

  lemma {:induction false} FieldsAdd(fields: seq<Def>, ms: seq<Member>)
    ensures fields != [] || ms != [] ==> FieldsFilled(fields, ms) != []
    decreases fields
  {
    if fields != [] {
      var k := GetItem(fields[0]);
      FieldsAdd(fields[1..], Insert(ms, k, Filled(fields[0], Lookup(ms, k))));
    }
  }

  /** The syntactic test is exact: these are the schemas that never fill anything. */
  lemma KeepsIsExact(d: Def)
    ensures Keeps(d) <==> forall v :: Filled(d, v) == v
  {
    if Keeps(d) {
      forall v ensures Filled(d, v) == v { if v != Nil { KeepsAll(d, v); } }
    } else if !KeepsPresent(d) {
      var v := FillsPresent(d);
      assert Filled(d, v) != v;
    } else {
      assert Filled(d, Nil) != Nil;
    }
  }

  /** No later field repeats a name that an earlier field may fill. */
  predicate FilledLast(fields: seq<Def>)
  {
    fields == [] || ((Named(fields[1..], GetItem(fields[0])) ==> Keeps(fields[0])) && FilledLast(fields[1..]))
  }

  /** The same of every object schema, and the defaults are values in memory. */
  predicate HidesNothing(d: Def)
  {
    match d
    case Plain(_, _) => true
    case AnyType(_) => true
    case ArrayOf(_, contents) => HidesNothing(contents)
    case ObjectOf(_, fields) => FilledLast(fields) && forall f :: f in fields ==> HidesNothing(f)
    case Nullable(inner) => HidesNothing(inner)
    case Optional(inner) => HidesNothing(inner)
    case WithDefault(inner, value) => HidesNothing(inner) && Ordered(value)
  }

  lemma {:induction false} DistinctFilledLast(fields: seq<Def>)
    requires DistinctNames(fields)
    ensures FilledLast(fields)
  {
    if fields != [] { DistinctFilledLast(fields[1..]); }
  }

  lemma {:induction false} ProperHidesNothing(d: Def)
    requires Proper(d)
    ensures HidesNothing(d)
    decreases d
  {
    match d
    case ArrayOf(_, contents) => ProperHidesNothing(contents);
    case ObjectOf(_, fields) =>
      DistinctFilledLast(fields);
      forall f | f in fields ensures HidesNothing(f) { ProperHidesNothing(f); }
    case Nullable(inner) => ProperHidesNothing(inner);
    case Optional(inner) => ProperHidesNothing(inner);
    case WithDefault(inner, _) => ProperHidesNothing(inner);
    case _ =>
  }

  ghost predicate OrderedMembers(ms: seq<Member>)
  {
    Ascending(ms) && forall m :: m in ms ==> Ordered(m.value)
  }

  // ---- objects ----

  lemma {:induction false} LookupOrdered(ms: seq<Member>, k: string)
    requires forall m :: m in ms ==> Ordered(m.value)
    ensures Ordered(Lookup(ms, k))
  {
    if ms != [] && ms[0].key != k { LookupOrdered(ms[1..], k); }
  }

  lemma InsertOrdered(ms: seq<Member>, k: string, v: Value)
    requires OrderedMembers(ms) && Ordered(v)
    ensures OrderedMembers(Insert(ms, k, v))
  {
    InsertIsMapUpdate(ms, k, v, k);
    InsertMembers(ms, k, v);
  }

  lemma {:induction false} InsertSame(ms: seq<Member>, k: string)
    requires Ascending(ms) && HasKey(ms, k)
    ensures Insert(ms, k, Lookup(ms, k)) == ms
  {
    if ms[0].key == k {
      assert ms == [ms[0]] + ms[1..];
    } else {
      InsertSame(ms[1..], k);
      KeysAscend(ms, k);
      LessIsStrictAndTotal(k, ms[0].key);
    }
  }

  lemma {:induction false} KeysAscend(ms: seq<Member>, k: string)
    requires Ascending(ms) && HasKey(ms, k) && ms[0].key != k
    ensures Less(ms[0].key, k)
  {
    if ms[1].key != k {
      KeysAscend(ms[1..], k);
      LessIsTransitive(ms[0].key, ms[1].key, k);
    }
  }

  lemma {:induction false} NamedMeans(fields: seq<Def>, key: string)
    ensures Named(fields, key) <==> exists j :: 0 <= j < |fields| && GetItem(fields[j]) == key
  {
    if fields != [] {
      NamedMeans(fields[1..], key);
      if Named(fields[1..], key) {
        var j :| 0 <= j < |fields[1..]| && GetItem(fields[1..][j]) == key;
        assert GetItem(fields[j + 1]) == key;
      }
      assert forall j :: 0 < j < |fields| ==> fields[j] == fields[1..][j - 1];
    }
  }

  lemma {:induction false} HasKeyMeans(ms: seq<Member>, key: string)
    ensures HasKey(ms, key) <==> exists m :: m in ms && m.key == key
  {
    if ms != [] { HasKeyMeans(ms[1..], key); }
  }

  // ---- problems are violations, and no violation is conformance ----

  lemma {:induction false} UnexpectedInsert(fields: seq<Def>, ms: seq<Member>, k: string, v: Value)
    requires Named(fields, k)
    ensures UnexpectedKeys(fields, Insert(ms, k, v)) == UnexpectedKeys(fields, ms)
  {
    if ms == [] {
      assert [Member(k, v)][1..] == [];
    } else if ms[0].key == k {
      assert Insert(ms, k, v)[1..] == ms[1..];
    } else if Less(k, ms[0].key) {
      assert Insert(ms, k, v)[1..] == ms;
    } else {
      UnexpectedInsert(fields, ms[1..], k, v);
      assert Insert(ms, k, v)[1..] == Insert(ms[1..], k, v);
    }
  }

  lemma {:induction false} UnexpectedFilled(all: seq<Def>, fields: seq<Def>, ms: seq<Member>)
    requires forall key :: Named(fields, key) ==> Named(all, key)
    ensures UnexpectedKeys(all, FieldsFilled(fields, ms)) == UnexpectedKeys(all, ms)
    decreases fields
  {
    if fields != [] {
      var k := GetItem(fields[0]);
      var x := Filled(fields[0], Lookup(ms, k));
      assert Named(fields, k);
      UnexpectedInsert(all, ms, k, x);
      UnexpectedFilled(all, fields[1..], Insert(ms, k, x));
    }
  }

  /** Filling in keeps values well formed. */
  lemma {:induction false} FilledOrdered(d: Def, v: Value)
    requires HidesNothing(d) && Ordered(v)
    ensures Ordered(Filled(d, v))
    decreases d, 0
  {
    match d
    case ArrayOf(_, contents) => if v.Array? { ItemsOrdered(contents, v.items); }
    case ObjectOf(_, fields) => if v.Object? { FieldsOrdered(fields, v.members); }
    case Nullable(inner) => FilledOrdered(inner, v);
    case Optional(inner) => FilledOrdered(inner, v);
    case WithDefault(inner, value) => FilledOrdered(inner, if v == Nil then value else v);
    case _ =>
  }

  lemma {:induction false} ItemsOrdered(d: Def, items: seq<Value>)
    requires HidesNothing(d) && forall x :: x in items ==> Ordered(x)
    ensures forall x :: x in ItemsFilled(d, items) ==> Ordered(x)
    decreases d, |items|
  {
    if items != [] {
      FilledOrdered(d, items[0]);
      ItemsOrdered(d, items[1..]);
    }
  }

  lemma {:induction false} FieldsOrdered(fields: seq<Def>, ms: seq<Member>)
    requires (forall f :: f in fields ==> HidesNothing(f)) && OrderedMembers(ms)
    ensures OrderedMembers(FieldsFilled(fields, ms))
    decreases fields, 0
  {
    if fields != [] {
      var k := GetItem(fields[0]);
      LookupOrdered(ms, k);
      FilledOrdered(fields[0], Lookup(ms, k));
      InsertOrdered(ms, k, Filled(fields[0], Lookup(ms, k)));
      FieldsOrdered(fields[1..], Insert(ms, k, Filled(fields[0], Lookup(ms, k))));
    }
  }

  /** The validator reports, in order, the violations by the original value. */
  lemma {:induction false} ReportedIsViolations(d: Def, v: Value)
    requires HidesNothing(d) && Ordered(v)
    ensures Reported(d, v) == Violations(d, v)
    decreases d, 0
  {
    match d
    case ArrayOf(_, contents) => if v.Array? { ReportedItemsIsViolations(contents, v.items); }
    case ObjectOf(_, fields) =>
      if v.Object? {
        ReportedFieldsIsViolations(fields, v.members, v.members);
        UnexpectedFilled(fields, fields, v.members);
      }
    case Nullable(inner) => ReportedIsViolations(inner, v);
    case Optional(inner) => ReportedIsViolations(inner, v);
    case WithDefault(inner, value) => ReportedIsViolations(inner, if v == Nil then value else v);
    case _ =>
  }

  lemma {:induction false} ReportedItemsIsViolations(d: Def, items: seq<Value>)
    requires HidesNothing(d) && forall x :: x in items ==> Ordered(x)
    ensures ReportedItems(d, items) == ItemsViolations(d, items)
    decreases d, |items|
  {
    if items != [] {
      ReportedIsViolations(d, items[0]);
      ReportedItemsIsViolations(d, items[1..]);
    }
  }

  /** `now` is the object as the fields before these have left it. */
  lemma {:induction false} ReportedFieldsIsViolations(fields: seq<Def>, ms: seq<Member>, now: seq<Member>)
    requires FilledLast(fields) && (forall f :: f in fields ==> HidesNothing(f))
    requires OrderedMembers(now) && forall key :: Named(fields, key) ==> Lookup(now, key) == Lookup(ms, key)
    ensures ReportedFields(fields, now) == FieldsViolations(fields, ms)
    decreases fields, 0
  {
    if fields != [] {
      var k := GetItem(fields[0]);
      assert Named(fields, k);
      LookupOrdered(now, k);
      ReportedIsViolations(fields[0], Lookup(now, k));
      var x := Filled(fields[0], Lookup(now, k));
      FilledOrdered(fields[0], Lookup(now, k));
      InsertOrdered(now, k, x);
      if Named(fields[1..], k) && Lookup(now, k) != Nil { KeepsAll(fields[0], Lookup(now, k)); }
      forall key | Named(fields[1..], key) ensures Lookup(Insert(now, k, x), key) == Lookup(ms, key) {
        InsertIsMapUpdate(now, k, x, key);
        assert Named(fields, key);
      }
      ReportedFieldsIsViolations(fields[1..], ms, Insert(now, k, x));
    }
  }

  /** There is nothing to report exactly when the value conforms. */
  lemma {:induction false} NoViolationsIsConformance(d: Def, v: Value)
    ensures Violations(d, v) == [] <==> Conforms(d, v)
    decreases d, 0
  {
    match d
    case ArrayOf(_, contents) => if v.Array? { NoItemsViolations(contents, v.items); }
    case ObjectOf(_, fields) =>
      if v.Object? {
        NoFieldsViolations(fields, v.members);
        NoUnexpectedKeys(fields, v.members);
      }
    case Nullable(inner) => NoViolationsIsConformance(inner, v);
    case Optional(inner) => NoViolationsIsConformance(inner, v);
    case WithDefault(inner, value) => NoViolationsIsConformance(inner, if v == Nil then value else v);
    case _ =>
  }

  lemma {:induction false} NoItemsViolations(d: Def, items: seq<Value>)
    ensures ItemsViolations(d, items) == [] <==> forall i :: 0 <= i < |items| ==> Conforms(d, items[i])
    decreases d, |items|
  {
    if items != [] {
      NoViolationsIsConformance(d, items[0]);
      NoItemsViolations(d, items[1..]);
      assert forall i :: 0 <= i < |items| - 1 ==> items[1..][i] == items[i + 1];
      assert forall i :: 0 < i < |items| ==> items[i] == items[1..][i - 1];
    }
  }

  lemma {:induction false} NoFieldsViolations(fields: seq<Def>, ms: seq<Member>)
    ensures FieldsViolations(fields, ms) == []
            <==> forall j :: 0 <= j < |fields| ==> Conforms(fields[j], Lookup(ms, GetItem(fields[j])))
    decreases fields, 0
  {
    if fields != [] {
      NoViolationsIsConformance(fields[0], Lookup(ms, GetItem(fields[0])));
      NoFieldsViolations(fields[1..], ms);
      assert forall j :: 0 <= j < |fields| - 1 ==> fields[1..][j] == fields[j + 1];
      assert forall j :: 0 < j < |fields| ==> fields[j] == fields[1..][j - 1];
    }
  }

  predicate HasField(fields: seq<Def>, key: string)
  {
    exists j :: 0 <= j < |fields| && GetItem(fields[j]) == key
  }

  lemma {:induction false} NoUnexpectedKeys(fields: seq<Def>, ms: seq<Member>)
    ensures UnexpectedKeys(fields, ms) == [] <==> forall m :: m in ms ==> HasField(fields, m.key)
  {
    if ms != [] {
      NamedMeans(fields, ms[0].key);
      NoUnexpectedKeys(fields, ms[1..]);
    }
  }

  // ---- a second validation ----

  /** Every key of the schema is there, and every default in place. */
  predicate Complete(d: Def, v: Value)
    decreases d
  {
    match d
    case Plain(_, _) => true
    case AnyType(_) => true
    case ArrayOf(_, contents) => v.Array? ==> forall i :: 0 <= i < |v.items| ==> Complete(contents, v.items[i])
    case ObjectOf(_, fields) =>
      v.Object? ==>
        forall j :: 0 <= j < |fields| ==>
          HasKey(v.members, GetItem(fields[j])) && Complete(fields[j], Lookup(v.members, GetItem(fields[j])))
    case Nullable(inner) => v == Null || Complete(inner, v)
    case Optional(inner) => v == Nil || Complete(inner, v)
    case WithDefault(inner, value) => (v == Nil ==> value == Nil) && Complete(inner, v)
  }

  /** What a second validation meets: a value that it accepts and leaves as it is. */
  predicate Settled(d: Def, v: Value)
  {
    Filled(d, v) == v && Complete(d, v)
  }

  lemma {:induction false} FilledKeepsPresence(d: Def, v: Value)
    requires v != Nil
    ensures Filled(d, v) != Nil
    decreases d
  {
    match d
    case Nullable(inner) => FilledKeepsPresence(inner, v);
    case Optional(inner) => FilledKeepsPresence(inner, v);
    case WithDefault(inner, value) => FilledKeepsPresence(inner, v);
    case _ =>
  }

  /** Validation is a normalisation: whatever it met, it leaves a value that it would leave alone. */
  lemma {:induction false} FilledIsSettled(d: Def, v: Value)
    requires HidesNothing(d) && Ordered(v)
    ensures Settled(d, Filled(d, v))
    decreases d, 0
  {
    match d
    case ArrayOf(_, contents) => if v.Array? { ItemsSettled(contents, v.items); }
    case ObjectOf(_, fields) => if v.Object? { ObjectSettled(fields, v.members); }
    case Nullable(inner) => FilledIsSettled(inner, v);
    case Optional(inner) =>
      if v != Nil {
        FilledKeepsPresence(inner, v);
        FilledIsSettled(inner, v);
      }
    case WithDefault(inner, value) =>
      var x := if v == Nil then value else v;
      FilledIsSettled(inner, x);
      if x != Nil { FilledKeepsPresence(inner, x); }
    case _ =>
  }

  lemma {:induction false} ItemsSettled(d: Def, items: seq<Value>)
    requires HidesNothing(d) && forall x :: x in items ==> Ordered(x)
    ensures var done := ItemsFilled(d, items);
      ItemsFilled(d, done) == done && forall i :: 0 <= i < |done| ==> Complete(d, done[i])
    decreases d, |items|
  {
    if items != [] {
      FilledIsSettled(d, items[0]);
      ItemsSettled(d, items[1..]);
      assert ItemsFilled(d, items)[1..] == ItemsFilled(d, items[1..]);
    }
  }

  /** What the fields leave in an object: every field filled from what was there, by the last one of
      its name, and the other keys untouched. */
  lemma {:induction false} FieldsFilledLookup(fields: seq<Def>, ms: seq<Member>, key: string)
    requires FilledLast(fields) && (forall f :: f in fields ==> HidesNothing(f)) && OrderedMembers(ms)
    ensures HasKey(FieldsFilled(fields, ms), key) <==> HasKey(ms, key) || Named(fields, key)
    ensures !Named(fields, key) ==> Lookup(FieldsFilled(fields, ms), key) == Lookup(ms, key)
    ensures forall j :: 0 <= j < |fields| && IsLast(fields, j, key) ==>
              Lookup(FieldsFilled(fields, ms), key) == Filled(fields[j], Lookup(ms, key))
    decreases fields
  {
    if fields != [] {
      var k := GetItem(fields[0]);
      var x := Filled(fields[0], Lookup(ms, k));
      LookupOrdered(ms, k);
      FilledOrdered(fields[0], Lookup(ms, k));
      InsertOrdered(ms, k, x);
      InsertIsMapUpdate(ms, k, x, key);
      if Named(fields[1..], k) { KeepsValue(fields[0], Lookup(ms, k)); }
      FieldsFilledLookup(fields[1..], Insert(ms, k, x), key);
      forall j | 0 <= j < |fields| && IsLast(fields, j, key)
        ensures Lookup(FieldsFilled(fields, ms), key) == Filled(fields[j], Lookup(ms, key))
      {
        if j > 0 {
          assert fields[j + 1..] == fields[1..][j..];
          assert IsLast(fields[1..], j - 1, key);
          NamedMeans(fields[1..], key);
        }
      }
    }
  }

  /** The last field of a name. */
  predicate IsLast(fields: seq<Def>, j: nat, key: string)
    requires j < |fields|
  {
    GetItem(fields[j]) == key && !Named(fields[j + 1..], key)
  }

  lemma {:induction false} LastOfName(fields: seq<Def>, key: string) returns (j: nat)
    requires Named(fields, key)
    ensures j < |fields| && IsLast(fields, j, key)
  {
    if Named(fields[1..], key) {
      j := LastOfName(fields[1..], key);
      assert fields[1..][j + 1..] == fields[j + 2..];
      j := j + 1;
    } else {
      j := 0;
    }
  }

  /** A field that is not the last of its name never fills anything. */
  lemma {:induction false} EarlierKeeps(fields: seq<Def>, j: nat)
    requires FilledLast(fields) && j < |fields| && Named(fields[j + 1..], GetItem(fields[j]))
    ensures Keeps(fields[j])
  {
    if j > 0 {
      assert fields[1..][j..] == fields[j + 1..];
      EarlierKeeps(fields[1..], j - 1);
    }
  }

  lemma KeepsValue(d: Def, v: Value)
    requires Keeps(d)
    ensures Filled(d, v) == v
  {
    if v != Nil { KeepsAll(d, v); }
  }

  lemma {:induction false} KeepsIsComplete(d: Def, v: Value)
    requires KeepsPresent(d) && (v == Nil ==> Filled(d, Nil) == Nil)
    ensures Complete(d, v)
    decreases d
  {
    match d
    case ArrayOf(_, contents) =>
      if v.Array? {
        forall i | 0 <= i < |v.items| ensures Complete(contents, v.items[i]) { KeepsIsComplete(contents, v.items[i]); }
      }
    case Nullable(inner) => KeepsIsComplete(inner, v);
    case Optional(inner) => if v != Nil { KeepsIsComplete(inner, v); }
    case WithDefault(inner, value) =>
      if v == Nil && value != Nil { FilledKeepsPresence(inner, value); }
      KeepsIsComplete(inner, v);
    case _ =>
  }

  lemma {:induction false} FieldsFixed(fields: seq<Def>, ms: seq<Member>)
    requires Ascending(ms)
    requires forall f :: f in fields ==>
      HasKey(ms, GetItem(f)) && Filled(f, Lookup(ms, GetItem(f))) == Lookup(ms, GetItem(f))
    ensures FieldsFilled(fields, ms) == ms
    decreases fields
  {
    if fields != [] {
      InsertSame(ms, GetItem(fields[0]));
      FieldsFixed(fields[1..], ms);
    }
  }

  lemma {:induction false} ObjectSettled(fields: seq<Def>, ms: seq<Member>)
    requires FilledLast(fields) && (forall f :: f in fields ==> HidesNothing(f)) && OrderedMembers(ms)
    ensures var done := FieldsFilled(fields, ms);
      && FieldsFilled(fields, done) == done
      && forall j :: 0 <= j < |fields| ==>
           HasKey(done, GetItem(fields[j])) && Complete(fields[j], Lookup(done, GetItem(fields[j])))
    decreases fields, 1
  {
    var done := FieldsFilled(fields, ms);
    forall j | 0 <= j < |fields|
      ensures HasKey(done, GetItem(fields[j])) && Settled(fields[j], Lookup(done, GetItem(fields[j])))
    {
      FieldSettled(fields, ms, j);
    }
    FieldsOrdered(fields, ms);
    FieldsFixed(fields, done);
  }

  lemma {:induction false} FieldSettled(fields: seq<Def>, ms: seq<Member>, j: nat)
    requires FilledLast(fields) && (forall f :: f in fields ==> HidesNothing(f)) && OrderedMembers(ms) && j < |fields|
    ensures var done := FieldsFilled(fields, ms);
      HasKey(done, GetItem(fields[j])) && Settled(fields[j], Lookup(done, GetItem(fields[j])))
    decreases fields, 0
  {
    var k := GetItem(fields[j]);
    NamedMeans(fields, k);
    FieldsFilledLookup(fields, ms, k);
    if Named(fields[j + 1..], k) {
      var y := Lookup(FieldsFilled(fields, ms), k);
      EarlierKeeps(fields, j);
      KeepsValue(fields[j], y);
      KeepsIsComplete(fields[j], y);
    } else {
      assert IsLast(fields, j, k);
      LookupOrdered(ms, k);
      FilledIsSettled(fields[j], Lookup(ms, k));
    }
  }

  /** A value that conforms still conforms after validation. */
  lemma {:induction false} FilledConforms(d: Def, v: Value)
    requires Proper(d) && Ordered(v) && Conforms(d, v)
    ensures Conforms(d, Filled(d, v))
    decreases d, 0
  {
    match d
    case ArrayOf(_, contents) => ItemsConform(contents, v.items);
    case ObjectOf(_, fields) => ObjectConforms(fields, v.members);
    case Nullable(inner) => if v != Null { FilledConforms(inner, v); }
    case Optional(inner) => if v != Nil { FilledConforms(inner, v); }
    case WithDefault(inner, value) =>
      var x := if v == Nil then value else v;
      FilledConforms(inner, x);
      if x != Nil { FilledKeepsPresence(inner, x); }
    case _ =>
  }

  lemma {:induction false} ItemsConform(d: Def, items: seq<Value>)
    requires Proper(d) && forall x :: x in items ==> Ordered(x) && Conforms(d, x)
    ensures forall x :: x in ItemsFilled(d, items) ==> Conforms(d, x)
    decreases d, |items|
  {
    if items != [] {
      FilledConforms(d, items[0]);
      ItemsConform(d, items[1..]);
    }
  }

  lemma {:induction false} DistinctIsLast(fields: seq<Def>, j: nat)
    requires DistinctNames(fields) && j < |fields|
    ensures IsLast(fields, j, GetItem(fields[j]))
  {
    if j > 0 {
      assert fields[1..][j..] == fields[j + 1..];
      DistinctIsLast(fields[1..], j - 1);
    }
  }

  lemma {:induction false} ObjectConforms(fields: seq<Def>, ms: seq<Member>)
    requires DistinctNames(fields) && (forall f :: f in fields ==> Proper(f)) && OrderedMembers(ms)
    requires forall j :: 0 <= j < |fields| ==> Conforms(fields[j], Lookup(ms, GetItem(fields[j])))
    requires forall m :: m in ms ==> HasField(fields, m.key)
    ensures var done := FieldsFilled(fields, ms);
      && (forall j :: 0 <= j < |fields| ==> Conforms(fields[j], Lookup(done, GetItem(fields[j]))))
      && (forall m :: m in done ==> HasField(fields, m.key))
    decreases fields, 0
  {
    var done := FieldsFilled(fields, ms);
    DistinctFilledLast(fields);
    forall f | f in fields ensures HidesNothing(f) { ProperHidesNothing(f); }
    forall j | 0 <= j < |fields| ensures Conforms(fields[j], Lookup(done, GetItem(fields[j]))) {
      var k := GetItem(fields[j]);
      LookupOrdered(ms, k);
      FilledConforms(fields[j], Lookup(ms, k));
      FieldsFilledLookup(fields, ms, k);
      DistinctIsLast(fields, j);
    }
    forall m | m in done ensures HasField(fields, m.key) {
      HasKeyMeans(done, m.key);
      HasKeyMeans(ms, m.key);
      FieldsFilledLookup(fields, ms, m.key);
      NamedMeans(fields, m.key);
    }
  }
}
