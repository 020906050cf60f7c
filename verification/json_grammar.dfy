/** The JSON grammar (include/gcm/json/parser.h). The program keeps parts of it in local
    variables and copies them into larger rules; here every such part is a slot that is assigned
    once, so that a rule is short and a part can be spoken of by name. A `Ref` to an assigned slot
    does what the slot's rule does. */
module JsonGrammar {
  import opened Grammars
  import opened Engine

  // The actions bound to the rules.
  const NULL_VALUE: ActionId := 0
  const TRUE_VALUE: ActionId := 1
  const FALSE_VALUE: ActionId := 2
  const INT_VALUE: ActionId := 3
  const DOUBLE_VALUE: ActionId := 4
  const STRING_VALUE: ActionId := 5
  const ARRAY_BEGIN: ActionId := 6
  const ARRAY_ITEM: ActionId := 7
  const ARRAY_END: ActionId := 8
  const OBJ_BEGIN: ActionId := 9
  const OBJ_ITEM: ActionId := 10
  const OBJ_END: ActionId := 11

  // The slots: first the three that make the grammar recursive.
  const VALUE := Ref(0)
  const ITEM := Ref(1)
  const MEMBER := Ref(2)
  const WS := Ref(3)
  const PLAIN := Ref(4)
  const ESCAPE := Ref(5)
  const CHARS := Ref(6)
  const V_NULL := Ref(7)
  const V_BOOL := Ref(8)
  const INT_PART := Ref(9)
  const V_INT := Ref(10)
  const FRAC := Ref(11)
  const EXP := Ref(12)
  const V_DOUBLE := Ref(13)
  const V_STRING := Ref(14)
  const MORE_ITEMS := Ref(15)
  const V_ARRAY := Ref(16)
  const IDENTIFIER := Ref(17)
  const MORE_MEMBERS := Ref(18)
  const V_OBJECT := Ref(19)
  const DOCUMENT := Ref(20)
  const HEX4 := Ref(21)

  const SLOTS: nat := 22

  /** `'c1' | 'c2' | ... | 'cn'`. */
  function AnyOf(cs: string): Rule
    requires cs != ""
  {
    Choice(seq(|cs|, i requires 0 <= i < |cs| => Char(cs[i])))
  }

  const ESCAPED := "\"\\/bfnrt"

  /** `'"' & _char >> action & '"'`. */
  function Quoted(action: ActionId): Rule { And3(Char('"'), Extractor(CHARS, action), Char('"')) }

  const VALUES := [V_NULL, V_BOOL, V_DOUBLE, V_INT, V_STRING, V_ARRAY, V_OBJECT]

  function Body(i: nat): Rule
    requires i < SLOTS
  {
    if i == VALUE.slot then Choice(VALUES)
    else if i == ITEM.slot then And4(Extractor(Not(Char(']')), ARRAY_ITEM), VALUE, WS, MORE_ITEMS)
    else if i == MEMBER.slot then And(And5(IDENTIFIER, WS, Char(':'), WS, VALUE), MORE_MEMBERS)
    else if i == WS.slot then Star(CType(Space))
    else if i == PLAIN.slot then Exception(Exception(AnyChar, Char('"')), Char('\\'))
    else if i == ESCAPE.slot then And(Char('\\'), Or(AnyOf(ESCAPED), And(Char('u'), HEX4)))
    else if i == CHARS.slot then Star(Or(PLAIN, ESCAPE))
    else if i == V_NULL.slot then Extractor(Literal("null"), NULL_VALUE)
    else if i == V_BOOL.slot then Or(Extractor(Literal("true"), TRUE_VALUE), Extractor(Literal("false"), FALSE_VALUE))
    else if i == INT_PART.slot then And(Maybe(Or(Char('+'), Char('-'))), Plus(CType(Digit)))
    else if i == V_INT.slot then Extractor(INT_PART, INT_VALUE)
    else if i == FRAC.slot then And(Char('.'), Star(CType(Digit)))
    else if i == EXP.slot then And(Char('e'), Star(CType(Digit)))
    else if i == V_DOUBLE.slot then Extractor(And(INT_PART, Or(Or(FRAC, EXP), And(FRAC, EXP))), DOUBLE_VALUE)
    else if i == V_STRING.slot then Quoted(STRING_VALUE)
    else if i == MORE_ITEMS.slot then Maybe(And3(Char(','), WS, Maybe(ITEM)))
    else if i == V_ARRAY.slot then
      And5(Extractor(Char('['), ARRAY_BEGIN), WS, Maybe(ITEM), WS, Extractor(Char(']'), ARRAY_END))
    else if i == IDENTIFIER.slot then Quoted(OBJ_ITEM)
    else if i == MORE_MEMBERS.slot then Maybe(And3(Char(','), WS, Maybe(MEMBER)))
    else if i == V_OBJECT.slot then
      And5(Extractor(Char('{'), OBJ_BEGIN), WS, Maybe(MEMBER), WS, Extractor(Char('}'), OBJ_END))
    else if i == DOCUMENT.slot then And3(WS, VALUE, WS)
    else Iteration(CType(XDigit), 4, 4)
  }

  /** Only white space, runs of characters and the optional tails may match nothing. */
  function ClaimOf(i: nat): Claim
  {
    var empty := i == WS.slot || i == CHARS.slot || i == MORE_ITEMS.slot || i == MORE_MEMBERS.slot;
    var rank := if i == VALUE.slot then 2 else if i == ITEM.slot || i == DOCUMENT.slot then 3
                else if i == V_INT.slot || i == V_DOUBLE.slot || i == CHARS.slot || i == MEMBER.slot then 1 else 0;
    Claim(empty, rank, RestoresOnFailure(i), empty)
  }

  /** The parts that give back what they consumed when they fail. */
  predicate RestoresOnFailure(i: nat)
  {
    i != VALUE.slot && i != ITEM.slot && i != MEMBER.slot && i != ESCAPE.slot && i != INT_PART.slot &&
    i != V_STRING.slot && i != V_ARRAY.slot && i != IDENTIFIER.slot && i != V_OBJECT.slot && i != DOCUMENT.slot
  }

  function J(): (g: Grammar)
    ensures IsJson(g)
  {
    Grammar(seq(SLOTS, i requires 0 <= i < SLOTS => Assigned(Body(i))),
            seq(SLOTS, i requires 0 <= i < SLOTS => ClaimOf(i)))
  }

  /** Has the rules of the JSON grammar in its slots. */
  ghost predicate IsJson(g: Grammar)
  {
    && |g.slots| == |g.claims| == SLOTS
    && forall i {:trigger g.slots[i]} {:trigger g.claims[i]} :: 0 <= i < SLOTS ==>
         g.slots[i] == Assigned(Body(i)) && g.claims[i] == ClaimOf(i)
  }

  ghost predicate Fits(g: Grammar, i: nat)
    requires IsJson(g) && i < SLOTS
  {
    SlotFits(g, Assigned(Body(i)), ClaimOf(i))
  }

  lemma AnyOfConsumes(g: Grammar, cs: string)
    requires cs != ""
    ensures Consumes(g, AnyOf(cs), 0)
  {
    ChoiceConsumes(g, seq(|cs|, i requires 0 <= i < |cs| => Char(cs[i])), 0);
  }

  /** A part that is not among those that may match nothing. */
  lemma PartConsumes(g: Grammar, i: nat)
    requires IsJson(g) && i < SLOTS && !ClaimOf(i).nullable
    ensures Consumes(g, Ref(i), ClaimOf(i).rank + 1)
  {
  }

  lemma ValueFits(g: Grammar)
    requires IsJson(g)
    ensures Fits(g, VALUE.slot)
  {
    forall r | r in VALUES ensures Consumes(g, r, 2) { PartConsumes(g, r.slot); }
    ChoiceConsumes(g, VALUES, 2);
  }

  lemma MemberFits(g: Grammar)
    requires IsJson(g)
    ensures Fits(g, MEMBER.slot)
  {
    PartConsumes(g, IDENTIFIER.slot);
    And5Consumes(g, IDENTIFIER, WS, Char(':'), WS, VALUE, 1);
    AndConsumes(g, And5(IDENTIFIER, WS, Char(':'), WS, VALUE), MORE_MEMBERS, 1);
  }

  lemma ItemFits(g: Grammar)
    requires IsJson(g)
    ensures Fits(g, ITEM.slot)
  {
    var look := Extractor(Not(Char(']')), ARRAY_ITEM);
    assert Productive(g, Not(Char(']'))) && LeftRank(g, Not(Char(']'))) == 0 by { LeafConsumes(g, Char(']')); }
    PartConsumes(g, VALUE.slot);
    EmptyThenConsumes(g, look, VALUE, 3);
    And3Consumes(g, And(look, VALUE), WS, MORE_ITEMS, 3);
  }

  /** `"..."`, whatever is bound to the characters. */
  lemma QuotedConsumes(g: Grammar, action: ActionId)
    requires IsJson(g)
    ensures Consumes(g, Quoted(action), 0)
  {
    LeafConsumes(g, Char('"'));
    And3Consumes(g, Char('"'), Extractor(CHARS, action), Char('"'), 0);
  }

  /** `'c' >> ... & _ws & -rest & _ws & 'd' >> ...`. */
  lemma BracketConsumes(g: Grammar, c: char, a1: ActionId, rest: Rule, d: char, a2: ActionId)
    requires IsJson(g) && Productive(g, Maybe(rest))
    ensures Consumes(g, And5(Extractor(Char(c), a1), WS, Maybe(rest), WS, Extractor(Char(d), a2)), 0)
  {
    LeafConsumes(g, Char(c));
    LeafConsumes(g, Char(d));
    WrappedConsumes(g, Char(c), a1, 0);
    WrappedConsumes(g, Char(d), a2, 0);
    And5Consumes(g, Extractor(Char(c), a1), WS, Maybe(rest), WS, Extractor(Char(d), a2), 0);
  }

  lemma BracketFits(g: Grammar, rest: Rule, c: char, a1: ActionId, d: char, a2: ActionId)
    requires IsJson(g) && (rest == ITEM || rest == MEMBER)
    ensures Consumes(g, And5(Extractor(Char(c), a1), WS, Maybe(rest), WS, Extractor(Char(d), a2)), 0)
  {
    PartConsumes(g, rest.slot);
    WrappedConsumes(g, rest, 0, ClaimOf(rest.slot).rank + 1);
    BracketConsumes(g, c, a1, rest, d, a2);
  }

  /** `-(',' & _ws & -rest)`. */
  lemma TailFits(g: Grammar, rest: Rule)
    requires IsJson(g) && Productive(g, Maybe(rest))
    ensures var r := Maybe(And3(Char(','), WS, Maybe(rest))); Productive(g, r) && LeftRank(g, r) == 0
  {
    LeafConsumes(g, Char(','));
    And3Consumes(g, Char(','), WS, Maybe(rest), 0);
    WrappedConsumes(g, And3(Char(','), WS, Maybe(rest)), 0, 0);
  }

  lemma TailFitsPart(g: Grammar, rest: Rule)
    requires IsJson(g) && (rest == ITEM || rest == MEMBER)
    ensures var r := Maybe(And3(Char(','), WS, Maybe(rest))); Productive(g, r) && LeftRank(g, r) == 0
  {
    PartConsumes(g, rest.slot);
    WrappedConsumes(g, rest, 0, ClaimOf(rest.slot).rank + 1);
    TailFits(g, rest);
  }

  lemma EscapeFits(g: Grammar)
    requires IsJson(g)
    ensures Fits(g, ESCAPE.slot)
  {
    AnyOfConsumes(g, ESCAPED);
    LeafConsumes(g, Char('u'));
    LeafConsumes(g, Char('\\'));
    AndConsumes(g, Char('u'), HEX4, 0);
    assert Consumes(g, Or(AnyOf(ESCAPED), And(Char('u'), HEX4)), 0);
    AndConsumes(g, Char('\\'), Or(AnyOf(ESCAPED), And(Char('u'), HEX4)), 0);
  }

  lemma PlainFits(g: Grammar)
    requires IsJson(g)
    ensures Fits(g, PLAIN.slot)
  {
    LeafConsumes(g, AnyChar);
    LeafConsumes(g, Char('"'));
    LeafConsumes(g, Char('\\'));
    assert Consumes(g, Exception(AnyChar, Char('"')), 0);
  }

  lemma CharsFit(g: Grammar)
    requires IsJson(g)
    ensures Fits(g, CHARS.slot)
  {
    PartConsumes(g, PLAIN.slot);
    PartConsumes(g, ESCAPE.slot);
    assert Consumes(g, Or(PLAIN, ESCAPE), 1);
    WrappedConsumes(g, Or(PLAIN, ESCAPE), 0, 1);
  }

  lemma WordConsumes(g: Grammar, word: string, action: ActionId)
    requires word != ""
    ensures Consumes(g, Extractor(Literal(word), action), 0)
  {
    LeafConsumes(g, Literal(word));
    WrappedConsumes(g, Literal(word), action, 0);
  }

  lemma OrConsumes(g: Grammar, a: Rule, b: Rule, rank: nat)
    requires Consumes(g, a, rank) && Consumes(g, b, rank)
    ensures Consumes(g, Or(a, b), rank)
  {
  }

  lemma RunsFit(g: Grammar)
    requires IsJson(g)
    ensures Fits(g, WS.slot) && Fits(g, HEX4.slot)
  {
    LeafConsumes(g, CType(Space));
    LeafConsumes(g, CType(XDigit));
    WrappedConsumes(g, CType(Space), 0, 0);
    assert Consumes(g, Iteration(CType(XDigit), 4, 4), 0);
  }

  lemma IntPartFits(g: Grammar)
    requires IsJson(g)
    ensures Fits(g, INT_PART.slot)
  {
    LeafConsumes(g, CType(Digit));
    LeafConsumes(g, Char('+'));
    LeafConsumes(g, Char('-'));
    OrConsumes(g, Char('+'), Char('-'), 0);
    WrappedConsumes(g, Or(Char('+'), Char('-')), 0, 0);
    WrappedConsumes(g, CType(Digit), 0, 0);
    EmptyThenConsumes(g, Maybe(Or(Char('+'), Char('-'))), Plus(CType(Digit)), 0);
  }

  lemma IntFits(g: Grammar)
    requires IsJson(g)
    ensures Fits(g, V_INT.slot)
  {
    PartConsumes(g, INT_PART.slot);
    WrappedConsumes(g, INT_PART, INT_VALUE, 1);
  }

  /** A mark and then digits. */
  lemma FractionConsumes(g: Grammar, c: char)
    ensures Consumes(g, And(Char(c), Star(CType(Digit))), 0)
  {
    LeafConsumes(g, CType(Digit));
    LeafConsumes(g, Char(c));
    WrappedConsumes(g, CType(Digit), 0, 0);
    AndConsumes(g, Char(c), Star(CType(Digit)), 0);
  }

  lemma DoubleConsumes(g: Grammar, whole: Rule, frac: Rule, exp: Rule)
    requires Consumes(g, whole, 1) && Consumes(g, frac, 1) && Consumes(g, exp, 1)
    ensures Consumes(g, Extractor(And(whole, Or(Or(frac, exp), And(frac, exp))), DOUBLE_VALUE), 1)
  {
    AndConsumes(g, frac, exp, 1);
    OrConsumes(g, frac, exp, 1);
    OrConsumes(g, Or(frac, exp), And(frac, exp), 1);
    AndConsumes(g, whole, Or(Or(frac, exp), And(frac, exp)), 1);
    WrappedConsumes(g, And(whole, Or(Or(frac, exp), And(frac, exp))), DOUBLE_VALUE, 1);
  }

  lemma DoubleFits(g: Grammar)
    requires IsJson(g)
    ensures Fits(g, V_DOUBLE.slot)
  {
    PartConsumes(g, FRAC.slot);
    PartConsumes(g, EXP.slot);
    PartConsumes(g, INT_PART.slot);
    DoubleConsumes(g, INT_PART, FRAC, EXP);
  }

  lemma DocumentFits(g: Grammar)
    requires IsJson(g)
    ensures Fits(g, DOCUMENT.slot)
  {
    PartConsumes(g, VALUE.slot);
    EmptyThenConsumes(g, WS, VALUE, 3);
    AndConsumes(g, And(WS, VALUE), WS, 3);
  }

  lemma EachFits(g: Grammar, i: nat)
    requires IsJson(g) && i < SLOTS
    ensures Fits(g, i)
  {
    if i == VALUE.slot { ValueFits(g); }
    else if i == ITEM.slot { ItemFits(g); }
    else if i == MEMBER.slot { MemberFits(g); }
    else if i == WS.slot || i == HEX4.slot { RunsFit(g); }
    else if i == PLAIN.slot { PlainFits(g); }
    else if i == CHARS.slot { CharsFit(g); }
    else if i == ESCAPE.slot { EscapeFits(g); }
    else if i == V_NULL.slot { WordConsumes(g, "null", NULL_VALUE); }
    else if i == V_BOOL.slot {
      WordConsumes(g, "true", TRUE_VALUE);
      WordConsumes(g, "false", FALSE_VALUE);
      OrConsumes(g, Extractor(Literal("true"), TRUE_VALUE), Extractor(Literal("false"), FALSE_VALUE), 0);
    }
    else if i == INT_PART.slot { IntPartFits(g); }
    else if i == V_INT.slot { IntFits(g); }
    else if i == FRAC.slot { FractionConsumes(g, '.'); }
    else if i == EXP.slot { FractionConsumes(g, 'e'); }
    else if i == V_DOUBLE.slot { DoubleFits(g); }
    else if i == V_STRING.slot { QuotedConsumes(g, STRING_VALUE); }
    else if i == IDENTIFIER.slot { QuotedConsumes(g, OBJ_ITEM); }
    else if i == V_ARRAY.slot { BracketFits(g, ITEM, '[', ARRAY_BEGIN, ']', ARRAY_END); }
    else if i == V_OBJECT.slot { BracketFits(g, MEMBER, '{', OBJ_BEGIN, '}', OBJ_END); }
    else if i == MORE_ITEMS.slot { TailFitsPart(g, ITEM); }
    else if i == MORE_MEMBERS.slot { TailFitsPart(g, MEMBER); }
    else { DocumentFits(g); }
  }

  /** The recursive JSON grammar passes the termination check. */
  lemma JsonTerminates(g: Grammar)
    requires IsJson(g)
    ensures WellFormed(g)
  {
    forall i | 0 <= i < SLOTS ensures SlotFits(g, g.slots[i], g.claims[i]) {
      EachFits(g, i);
    }
  }
}
