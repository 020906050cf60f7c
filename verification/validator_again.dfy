/** Validating twice when a name is used twice: exactly which fields may stand after another one of their
    name. */
module ValidatorAgain {
  import opened Json
  import opened Validator
  import opened ValidatorLaws
  import opened ValidatorRepeats

  /** Validation fills a value that it accepts in a way that a definition which never fills anything
      can see: an object without keys gets one. */
  predicate ChangesPresent(d: Def)
    decreases d, 0
  {
    match d
    case Plain(_, _) => false
    case AnyType(_) => false
    case ArrayOf(_, contents) => Changes(contents)
    case ObjectOf(_, fields) => fields != [] && Conforms(d, Object([]))
    case Nullable(inner) => ChangesPresent(inner)
    case Optional(inner) => ChangesPresent(inner)
    case WithDefault(inner, _) => ChangesPresent(inner)
  }

  /** Or it fills in a missing value that it accepts. */
  predicate Changes(d: Def)
    decreases d, 1
  {
    ChangesPresent(d) || (Conforms(d, Nil) && Filled(d, Nil) != Nil)
  }

  // ---- a definition that fills nothing goes on accepting ----

  lemma {:induction false} PlainIsKept(d: Def, x: Value)
    requires x != Nil && !x.Array? && !x.Object?
    ensures Filled(d, x) == x
    decreases d
  {
    match d
    case Nullable(inner) => if x != Null { PlainIsKept(inner, x); }
    case Optional(inner) => PlainIsKept(inner, x);
    case WithDefault(inner, _) => PlainIsKept(inner, x);
    case _ =>
  }

  lemma {:induction false} ItemAt(c: Def, items: seq<Value>, i: nat)
    requires i < |items|
    ensures ItemsFilled(c, items)[i] == Filled(c, items[i])
  {
    if i > 0 { ItemAt(c, items[1..], i - 1); }
  }

  lemma {:induction false} GoesOnAccepting(f: Def, g: Def, x: Value)
    requires Keeps(f) && !Changes(g) && Conforms(f, x) && Conforms(g, x)
    ensures Conforms(f, Filled(g, x))
    decreases f, g, 2
  {
    if x != Nil { PresentGoesOn(f, g, x); }
  }

  lemma {:induction false} PresentGoesOn(f: Def, g: Def, x: Value)
    requires KeepsPresent(f) && !ChangesPresent(g) && x != Nil && Conforms(f, x) && Conforms(g, x)
    ensures Conforms(f, Filled(g, x))
    decreases f, g, 1
  {
    if !x.Array? && !x.Object? {
      PlainIsKept(g, x);
    } else {
      match g
      case Nullable(inner) => PresentGoesOn(f, inner, x);
      case Optional(inner) => PresentGoesOn(f, inner, x);
      case WithDefault(inner, _) => PresentGoesOn(f, inner, x);
      case ArrayOf(_, contents) => ArrayGoesOn(f, g, x);
      case ObjectOf(_, fields) => ObjectGoesOn(f, g, x);
      case _ =>
    }
  }

  lemma {:induction false} ArrayGoesOn(f: Def, g: Def, x: Value)
    requires KeepsPresent(f) && g.ArrayOf? && !Changes(g.contents) && x.Array? && Conforms(f, x) && Conforms(g, x)
    ensures Conforms(f, Filled(g, x))
    decreases f, g, 0
  {
    match f
    case Nullable(inner) => ArrayGoesOn(inner, g, x);
    case Optional(inner) => ArrayGoesOn(inner, g, x);
    case WithDefault(inner, _) => ArrayGoesOn(inner, g, x);
    case ArrayOf(_, contents) =>
      forall i | 0 <= i < |x.items| ensures Conforms(contents, ItemsFilled(g.contents, x.items)[i]) {
        ItemAt(g.contents, x.items, i);
        GoesOnAccepting(contents, g.contents, x.items[i]);
      }
    case _ =>
  }

  lemma SomeMember(ms: seq<Member>)
    ensures ms == [] || exists m :: m in ms
  {
    assert ms != [] ==> ms[0] in ms;
  }

  lemma {:induction false} ObjectGoesOn(f: Def, g: Def, x: Value)
    requires KeepsPresent(f) && g.ObjectOf? && !ChangesPresent(g) && x.Object? && Conforms(f, x) && Conforms(g, x)
    ensures Conforms(f, Filled(g, x))
    decreases f, g, 0
  {
    match f
    case Nullable(inner) => ObjectGoesOn(inner, g, x);
    case Optional(inner) => ObjectGoesOn(inner, g, x);
    case WithDefault(inner, _) => ObjectGoesOn(inner, g, x);
    case ObjectOf(_, fields) =>
      SomeMember(x.members);
      assert x == Object([]);
    case _ =>
  }

  // ---- or some such definition refuses what it accepted ----

  /** A value that both accept, and that `f` refuses once `g` has filled it. */
  ghost predicate Refuses(f: Def, g: Def, w: Value)
  {
    Keeps(f) && HidesNothing(f) && Ordered(w) && Conforms(g, w) && Conforms(f, w) && !Conforms(f, Filled(g, w))
  }

  lemma {:induction false} RefusesPresent(g: Def, k: string) returns (f: Def, w: Value)
    requires ChangesPresent(g)
    ensures GetItem(f) == k && Refuses(f, g, w) && w != Nil && w != Null
    decreases g, 0
  {
    match g
    case ArrayOf(item, c) =>
      var l, e := RefusesChange(c, k);
      f, w := ArrayOf(k, l), Array([e]);
      InArray(item, c, e);
      InArray(k, l, e);
      InArray(k, l, Filled(c, e));
    case ObjectOf(_, fields) =>
      f, w := ObjectOf(k, []), Object([]);
      FieldsAdd(fields, []);
      var ms := FieldsFilled(fields, []);
      assert ms[0] in ms;
    case Nullable(inner) => f, w := RefusesPresent(inner, k);
    case Optional(inner) => f, w := RefusesPresent(inner, k);
    case WithDefault(inner, _) => f, w := RefusesPresent(inner, k);
  }

  lemma {:induction false} RefusesChange(g: Def, k: string) returns (f: Def, w: Value)
    requires Changes(g)
    ensures GetItem(f) == k && Refuses(f, g, w)
    decreases g, 1
  {
    if ChangesPresent(g) {
      f, w := RefusesPresent(g, k);
    } else {
      var other := if KindOf(Filled(g, Nil)) == NullKind then IntKind else NullKind;
      var inner := Plain(other, k);
      f, w := Optional(inner), Nil;
      assert GetItem(inner) == k && KeepsPresent(inner) && HidesNothing(inner);
      assert !Conforms(inner, Filled(g, Nil));
    }
  }

  // ---- two fields of one name, twice ----

  /** Whatever field that fills nothing stands before it under its name: what is accepted once is
      accepted again. */
  ghost predicate AcceptedAgain(item: string, g: Def)
  {
    forall f, v :: Keeps(f) && HidesNothing(f) && GetItem(f) == GetItem(g) && Ordered(v) ==>
      var d := ObjectOf(item, [f, g]); Reported(d, v) == [] ==> Reported(d, Filled(d, v)) == []
  }

  /** What the pair leaves of an object. */
  lemma PairFilled(item: string, f: Def, g: Def, ms: seq<Member>)
    requires HidesNothing(f) && Keeps(f) && HidesNothing(g) && GetItem(f) == GetItem(g) && OrderedMembers(ms)
    ensures var k, done := GetItem(f), FieldsFilled([f, g], ms);
      && OrderedMembers(done) && Lookup(done, k) == Filled(g, Lookup(ms, k))
      && (UnexpectedKeys([f, g], done) == [] <==> UnexpectedKeys([f, g], ms) == [])
  {
    var k := GetItem(f);
    PairHidesNothing(item, f, g);
    FieldsOrdered([f, g], ms);
    FieldsFilledLookup([f, g], ms, k);
    assert [f, g][2..] == [];
    assert IsLast([f, g], 1, k);
    UnexpectedFilled([f, g], [f, g], ms);
  }

  lemma PairTwice(item: string, f: Def, g: Def, ms: seq<Member>)
    requires HidesNothing(f) && Keeps(f) && Proper(g) && GetItem(f) == GetItem(g) && OrderedMembers(ms)
    requires Reported(ObjectOf(item, [f, g]), Object(ms)) == []
    ensures var d, x := ObjectOf(item, [f, g]), Lookup(ms, GetItem(f));
      && Conforms(f, x) && Conforms(g, x)
      && (Reported(d, Filled(d, Object(ms))) == [] <==> Conforms(f, Filled(g, x)))
  {
    var x, done := Lookup(ms, GetItem(f)), FieldsFilled([f, g], ms);
    ProperHidesNothing(g);
    KeepsValue(f, x);
    KeepsValue(f, Filled(g, x));
    PairVerdicts(item, f, g, ms);
    PairFilled(item, f, g, ms);
    PairVerdicts(item, f, g, done);
    LookupOrdered(ms, GetItem(f));
    FilledConforms(g, x);
  }

  /** A second validation accepts what the first has accepted, whatever field that fills nothing the
      definition repeats, if and only if it never fills in a missing value, or the first key of an
      object, that it accepts. */
  lemma AgainExactly(item: string, g: Def)
    requires Proper(g)
    ensures AcceptedAgain(item, g) <==> !Changes(g)
  {
    if Changes(g) {
      var f, w := RefusesChange(g, GetItem(g));
      var ms := [Member(GetItem(g), w)];
      ProperHidesNothing(g);
      KeepsValue(f, w);
      PairVerdicts(item, f, g, ms);
      assert Named([f, g], GetItem(g)) && ms[1..] == [];
      PairTwice(item, f, g, ms);
      assert Ordered(Object(ms));
    } else {
      forall f, v | Keeps(f) && HidesNothing(f) && GetItem(f) == GetItem(g) && Ordered(v)
        ensures var d := ObjectOf(item, [f, g]); Reported(d, v) == [] ==> Reported(d, Filled(d, v)) == []
      {
        var d := ObjectOf(item, [f, g]);
        if v.Object? && Reported(d, v) == [] {
          PairTwice(item, f, g, v.members);
          GoesOnAccepting(f, g, Lookup(v.members, GetItem(f)));
        }
      }
    }
  }
}
