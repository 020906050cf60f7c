/** Validation of a call's arguments (include/gcm/json/validator/detail/params.h). */
module ValidatorParams {
  import opened Json
  import opened Validator
  import opened ValidatorLaws

  /** `validate` returns true or throws its diagnostics. */
  datatype Verdict = Accepted | Thrown(problems: seq<Problem>)

  function TooManyProblem(accepts: nat, given: nat): Problem
  {
    Problem("", UnexpectedParam,
      "Function accepts " + Decimal(accepts) + " arguments, " + Decimal(given) + " given.")
  }

  function ArgAt(args: seq<Value>, i: nat): Value { if i < |args| then args[i] else Nil }

  function ArgsReported(params: seq<Def>, args: seq<Value>, i: nat): seq<Problem>
    requires i <= |params|
    decreases |params| - i
  {
    if i == |params| then [] else Reported(params[i], ArgAt(args, i)) + ArgsReported(params, args, i + 1)
  }

  function TooMany(params: seq<Def>, args: seq<Value>): seq<Problem>
  {
    if |args| > |params| then [TooManyProblem(|params|, |args|)] else []
  }

  /** The arguments as validation leaves them: padded, filled in, the superfluous ones untouched. */
  function ArgsFilled(params: seq<Def>, args: seq<Value>): (r: seq<Value>)
    ensures |r| == if |args| > |params| then |args| else |params|
  {
    seq(|params|, i requires 0 <= i < |params| => Filled(params[i], ArgAt(args, i)))
      + if |args| > |params| then args[|params|..] else []
  }

  class ParamDefinitions {
    const params: seq<Def>
    var actualArgs: nat

    constructor (params: seq<Def>)
      ensures this.params == params
    {
      this.params := params;
      actualArgs := 0;
    }

    method Validate(value: seq<Value>) returns (verdict: Verdict, out: seq<Value>)
      modifies this
      ensures var problems := ArgsReported(params, value, 0) + TooMany(params, value);
        verdict == if problems == [] then Accepted else Thrown(problems)
      ensures out == ArgsFilled(params, value)
    {
      var diag := new Diagnostics();
      actualArgs := |value|;
      var res;
      res, out := CheckFrom(diag, value, value, 0);
      verdict := if res then Accepted else Thrown(diag.problems);
    }

    /** Checks the arguments from `begin` on against the parameters from `begin` on; `args` are the
        original arguments. */
    method CheckFrom(diag: Diagnostics, ghost args: seq<Value>, value: seq<Value>, begin: nat)
      returns (res: bool, out: seq<Value>)
      requires begin <= |params| && begin <= |value|
      requires value == ArgsFilled(params, args)[..begin] + (if begin < |args| then args[begin..] else [])
      requires actualArgs == |value|
      modifies this, diag
      ensures diag.problems == old(diag.problems) + ArgsReported(params, args, begin) + TooMany(params, args)
      ensures res <==> ArgsReported(params, args, begin) == [] && TooMany(params, args) == []
      ensures out == ArgsFilled(params, args)
      decreases |params| - begin
    {
      if begin == |params| {
        if begin != |value| {
          diag.AddProblem(TooManyProblem(|params|, actualArgs));
          return false, value;
        }
        return true, value;
      }
      var padded := value;
      if begin == |value| {
        padded := padded + [Nil];
        actualArgs := actualArgs + 1;
      }
      var head, x := Check(diag, params[begin], padded[begin]);
      Regroup(old(diag.problems), Reported(params[begin], ArgAt(args, begin)), ArgsReported(params, args, begin + 1));
      var tail;
      tail, out := CheckFrom(diag, args, padded[begin := x], begin + 1);
      res := head && tail;
    }
  }

  // ---- what a call's arguments are after validation ----

  ghost predicate ProperParams(params: seq<Def>) { forall i :: 0 <= i < |params| ==> Proper(params[i]) }

  ghost predicate ParamsHideNothing(params: seq<Def>) { forall i :: 0 <= i < |params| ==> HidesNothing(params[i]) }

  ghost predicate OrderedArgs(args: seq<Value>) { forall i :: 0 <= i < |args| ==> Ordered(args[i]) }

  function ArgsViolations(params: seq<Def>, args: seq<Value>, i: nat): seq<Problem>
    requires i <= |params|
    decreases |params| - i
  {
    if i == |params| then [] else Violations(params[i], ArgAt(args, i)) + ArgsViolations(params, args, i + 1)
  }

  /** The diagnostics are, in order, the violations by the arguments as they were passed. */
  lemma {:induction false} ReportsAreViolations(params: seq<Def>, args: seq<Value>, i: nat)
    requires i <= |params| && ParamsHideNothing(params) && OrderedArgs(args)
    ensures ArgsReported(params, args, i) == ArgsViolations(params, args, i)
    decreases |params| - i
  {
    if i < |params| {
      ReportedIsViolations(params[i], ArgAt(args, i));
      ReportsAreViolations(params, args, i + 1);
    }
  }

  lemma {:induction false} NoArgsViolations(params: seq<Def>, args: seq<Value>, i: nat)
    requires i <= |params|
    ensures ArgsViolations(params, args, i) == []
            <==> forall j :: i <= j < |params| ==> Conforms(params[j], ArgAt(args, j))
    decreases |params| - i
  {
    if i < |params| {
      NoViolationsIsConformance(params[i], ArgAt(args, i));
      NoArgsViolations(params, args, i + 1);
    }
  }

  ghost predicate ArgsConform(params: seq<Def>, args: seq<Value>)
  {
    |args| <= |params| && forall j :: 0 <= j < |params| ==> Conforms(params[j], ArgAt(args, j))
  }

  predicate AcceptedArgs(params: seq<Def>, args: seq<Value>)
  {
    ArgsReported(params, args, 0) + TooMany(params, args) == []
  }

  /** Validation accepts exactly the conforming argument lists. */
  lemma AcceptedIsConforming(params: seq<Def>, args: seq<Value>)
    requires ParamsHideNothing(params) && OrderedArgs(args)
    ensures AcceptedArgs(params, args) <==> ArgsConform(params, args)
  {
    ReportsAreViolations(params, args, 0);
    NoArgsViolations(params, args, 0);
  }

  lemma FilledArgOrdered(params: seq<Def>, args: seq<Value>, i: nat)
    requires ParamsHideNothing(params) && OrderedArgs(args) && i < |params|
    ensures ArgAt(ArgsFilled(params, args), i) == Filled(params[i], ArgAt(args, i))
    ensures Ordered(ArgAt(ArgsFilled(params, args), i))
    ensures Settled(params[i], ArgAt(ArgsFilled(params, args), i))
  {
    FilledOrdered(params[i], ArgAt(args, i));
    FilledIsSettled(params[i], ArgAt(args, i));
  }

  /** Whatever was passed, validation leaves a complete value for each parameter, and a second
      validation changes nothing. */
  lemma SecondChangesNothing(params: seq<Def>, args: seq<Value>)
    requires ParamsHideNothing(params) && OrderedArgs(args)
    ensures var out := ArgsFilled(params, args);
      && (forall i :: 0 <= i < |params| ==> Complete(params[i], out[i]))
      && ArgsFilled(params, out) == out
  {
    var out := ArgsFilled(params, args);
    forall i | 0 <= i < |params| ensures Settled(params[i], out[i]) { FilledArgOrdered(params, args, i); }
    assert forall i :: 0 <= i < |params| ==> ArgsFilled(params, out)[i] == out[i];
  }

  /** With distinct field names, accepted arguments become exactly one complete, conforming value for
      each parameter, and a second validation accepts them and changes nothing. */
  lemma SecondValidation(params: seq<Def>, args: seq<Value>)
    requires ProperParams(params) && OrderedArgs(args) && AcceptedArgs(params, args)
    ensures var out := ArgsFilled(params, args);
      && |out| == |params|
      && (forall i :: 0 <= i < |params| ==> Conforms(params[i], out[i]) && Complete(params[i], out[i]))
      && AcceptedArgs(params, out)
      && ArgsFilled(params, out) == out
  {
    forall i | 0 <= i < |params| ensures HidesNothing(params[i]) { ProperHidesNothing(params[i]); }
    AcceptedIsConforming(params, args);
    SecondChangesNothing(params, args);
    var out := ArgsFilled(params, args);
    forall i | 0 <= i < |params| ensures Conforms(params[i], out[i]) && Ordered(out[i])
    {
      FilledArgOrdered(params, args, i);
      FilledConforms(params[i], ArgAt(args, i));
    }
    AcceptedIsConforming(params, out);
  }

  // ---- what a name used twice breaks ----

  /** Two fields of one name, looked for in an object that has no member. */
  lemma TwoFields(f1: Def, f2: Def)
    requires GetItem(f1) == GetItem(f2)
    ensures var x := Filled(f1, Nil);
      && FieldsViolations([f1, f2], []) == Violations(f1, Nil) + Violations(f2, Nil)
      && ReportedFields([f1, f2], []) == Reported(f1, Nil) + Reported(f2, x)
      && FieldsFilled([f1, f2], []) == [Member(GetItem(f1), Filled(f2, x))]
      && UnexpectedKeys([f1, f2], FieldsFilled([f1, f2], [])) == []
  {
    var k, x := GetItem(f1), Filled(f1, Nil);
    assert [f1, f2][1..] == [f2] && [f2][1..] == [];
    assert FieldsViolations([f2], []) == Violations(f2, Nil) + [];
    var ms := [Member(k, x)];
    assert Insert([], k, x) == ms && Lookup(ms, k) == x;
    assert Insert(ms, k, Filled(f2, x)) == [Member(k, Filled(f2, x))];
    assert ReportedFields([f2], ms) == Reported(f2, x) + [];
    assert FieldsFilled([f2], ms) == [Member(k, Filled(f2, x))];
    assert [Member(k, Filled(f2, x))][1..] == [];
  }

  /** A default hides that a later field of the same name is missing, whenever it would do for that
      field. */
  lemma DuplicateHidesViolation(item: string, f: Def, value: Value, later: Def)
    requires GetItem(f) == GetItem(later) && Reported(f, value) == []
    requires Violations(later, Nil) != [] && Reported(later, Filled(f, value)) == []
    ensures var d := ObjectOf(item, [WithDefault(f, value), later]);
      Violations(d, Object([])) != [] && Reported(d, Object([])) == []
  {
    TwoFields(WithDefault(f, value), later);
  }

  /** An instance: a default integer, and then an integer that must be there. */
  lemma HiddenInstance()
    ensures var d := ObjectOf("o", [WithDefault(Plain(IntKind, "a"), Int(1)), Plain(IntKind, "a")]);
      Violations(d, Object([])) != [] && Reported(d, Object([])) == []
  {
    DuplicateHidesViolation("o", Plain(IntKind, "a"), Int(1), Plain(IntKind, "a"));
  }

  /** Why a second validation needs names that are not repeated at all: what a later field has
      filled in, an earlier one that was content with nothing may refuse. */
  lemma DuplicateIsRefusedLater(item: string, f: Def, later: Def, value: Value)
    requires GetItem(f) == GetItem(later) && Keeps(f)
    requires Reported(later, value) == [] && Filled(later, value) != Nil && Violations(f, Filled(later, value)) != []
    requires HidesNothing(f) && HidesNothing(later) && Ordered(value)
    ensures var d := ObjectOf(item, [Optional(f), WithDefault(later, value)]);
      && HidesNothing(d) && Reported(d, Object([])) == []
      && Reported(d, Filled(d, Object([]))) != []
  {
    var f1, f2, x := Optional(f), WithDefault(later, value), Filled(later, value);
    var d, ms := ObjectOf(item, [f1, f2]), [Member(GetItem(f), x)];
    TwoHideNothing(item, f1, f2);
    assert Reported(d, Object([])) == [] && Filled(d, Object([])) == Object(ms) by { TwoFields(f1, f2); }
    assert Reported(f1, Lookup(ms, GetItem(f1))) != [] by {
      FilledOrdered(later, value);
      ReportedIsViolations(f, x);
    }
    FirstReports(item, [f1, f2], ms);
  }

  lemma TwoHideNothing(item: string, f1: Def, f2: Def)
    requires HidesNothing(f1) && HidesNothing(f2) && Keeps(f1)
    ensures HidesNothing(ObjectOf(item, [f1, f2]))
  {
    assert [f1, f2][1..] == [f2] && [f2][1..] == [];
  }

  lemma FirstReports(item: string, fields: seq<Def>, ms: seq<Member>)
    requires fields != [] && Reported(fields[0], Lookup(ms, GetItem(fields[0]))) != []
    ensures Reported(ObjectOf(item, fields), Object(ms)) != []
  {
    var k := GetItem(fields[0]);
    var first := Reported(fields[0], Lookup(ms, k));
    var rest := ReportedFields(fields[1..], Insert(ms, k, Filled(fields[0], Lookup(ms, k))));
    var keys := UnexpectedKeys(fields, FieldsFilled(fields, ms));
    assert Reported(ObjectOf(item, fields), Object(ms)) == first + rest + keys;
    assert |first + rest + keys| > 0;
  }
}
