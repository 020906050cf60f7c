/** The rules of the parser combinators (include/gcm/parser) and the static facts a grammar
    must meet for evaluation to terminate.

    A rule object is a value of `Rule`; a `rule<I>` slot, shared and assigned after it was
    created, is a `Ref` into a sequence of slots, which is what lets grammars be recursive. */
module Grammars {

  /** The character classes of <cctype> in the "C" locale. */
  datatype CharClass = Space | Print | Cntrl | Upper | Lower | Alpha | Digit | Punct | XDigit | Blank | Alnum | Graph

  predicate InClass(c: CharClass, ch: char)
  {
    match c
    case Space => ch == ' ' || '\t' <= ch <= '\r'
    case Print => ' ' <= ch <= '~'
    case Cntrl => ch < ' ' || ch == 127 as char
    case Upper => 'A' <= ch <= 'Z'
    case Lower => 'a' <= ch <= 'z'
    case Alpha => 'A' <= ch <= 'Z' || 'a' <= ch <= 'z'
    case Digit => '0' <= ch <= '9'
    case Punct => '!' <= ch <= '/' || ':' <= ch <= '@' || '[' <= ch <= '`' || '{' <= ch <= '~'
    case XDigit => '0' <= ch <= '9' || 'A' <= ch <= 'F' || 'a' <= ch <= 'f'
    case Blank => ch == ' ' || ch == '\t'
    case Alnum => '0' <= ch <= '9' || 'A' <= ch <= 'Z' || 'a' <= ch <= 'z'
    case Graph => ' ' < ch <= '~'
  }

  /** The white space of the "C" locale, character by character: blank, tab, line feed, vertical tab,
      form feed, carriage return. */
  predicate IsWhite(ch: char)
  {
    ch == ' ' || ch == '\t' || ch == '\n' || ch == 11 as char || ch == 12 as char || ch == '\r'
  }

  lemma SpaceIsWhite(ch: char)
    ensures InClass(Space, ch) <==> IsWhite(ch)
  {
  }

  /** What the C standard says of the other classes (section 7.4 of ISO C), in the "C" locale. */
  lemma ClassesOfC(ch: char)
    ensures InClass(Upper, ch) <==> 65 <= ch as int <= 90
    ensures InClass(Lower, ch) <==> 97 <= ch as int <= 122
    ensures InClass(Digit, ch) <==> ch in "0123456789"
    ensures InClass(XDigit, ch) <==> InClass(Digit, ch) || ch in "abcdefABCDEF"
    ensures InClass(Alpha, ch) <==> InClass(Upper, ch) || InClass(Lower, ch)
    ensures InClass(Alnum, ch) <==> InClass(Alpha, ch) || InClass(Digit, ch)
    ensures InClass(Punct, ch) <==> InClass(Graph, ch) && !InClass(Alnum, ch)
    ensures InClass(Print, ch) <==> InClass(Graph, ch) || ch == ' '
    ensures InClass(Print, ch) <==> 32 <= ch as int <= 126
    ensures InClass(Cntrl, ch) <==> ch as int < 128 && !InClass(Print, ch)
    ensures InClass(Blank, ch) <==> ch == ' ' || ch == '\t'
  {
  }

  /** Names the callable bound to an extractor or error rule. */
  type ActionId = nat

  datatype Rule =
    | AnyChar
    | End
    | NullMatch
    | Lookahead(text: string)
    | Char(ch: char)
    | CType(class_: CharClass)
    | Literal(lit: string)
    | And(r1: Rule, r2: Rule)
    | Or(r1: Rule, r2: Rule)
    | Exception(r1: Rule, r2: Rule)
    | Iteration(rule: Rule, min: int, max: int)  // a negative max means "no limit"
    | Not(rule: Rule)
    | Extractor(rule: Rule, action: ActionId)
    | Error(rule: Rule, action: ActionId)
    | Ref(slot: nat)

  function Star(r: Rule): Rule { Iteration(r, 0, -1) }

  function Plus(r: Rule): Rule { Iteration(r, 1, -1) }

  function Maybe(r: Rule): Rule { Iteration(r, 0, 1) }

  /** `r1 | r2 | ... | rn`, nested to the left as the operators do. */
  function Choice(rs: seq<Rule>): Rule
    requires rs != []
  {
    if |rs| == 1 then rs[0] else Or(Choice(rs[..|rs| - 1]), rs[|rs| - 1])
  }

  function And3(a: Rule, b: Rule, c: Rule): Rule { And(And(a, b), c) }

  function And4(a: Rule, b: Rule, c: Rule, d: Rule): Rule { And(And3(a, b, c), d) }

  function And5(a: Rule, b: Rule, c: Rule, d: Rule, e: Rule): Rule { And(And4(a, b, c, d), e) }

  /** What a `rule<I>` holds: nothing yet, or the rule it was assigned. */
  datatype Slot = Unassigned | Assigned(rule: Rule)

  /** What is claimed of a slot: it may succeed without consuming input, its place in the order
      in which slots enter one another without consuming input, and (for the comparison with
      PEG) whether it leaves the position alone when it fails, and whether it can fail. */
  datatype Claim = Claim(nullable: bool, rank: nat, restores: bool, infallible: bool)

  datatype Grammar = Grammar(slots: seq<Slot>, claims: seq<Claim>)

  /** False only for rules that consume at least one character whenever they succeed. */
  predicate Nullable(g: Grammar, r: Rule)
  {
    match r
    case AnyChar => false
    case Char(_) => false
    case CType(_) => false
    case End => true
    case NullMatch => true
    case Lookahead(_) => true
    case Not(_) => true
    case Literal(lit) => lit == ""
    case And(a, b) => Nullable(g, a) && Nullable(g, b)
    case Or(a, b) => Nullable(g, a) || Nullable(g, b)
    case Exception(a, _) => Nullable(g, a)
    case Iteration(a, min, _) => min <= 0 || Nullable(g, a)
    case Extractor(a, _) => Nullable(g, a)
    case Error(a, _) => Nullable(g, a)
    case Ref(i) => i >= |g.claims| || g.claims[i].nullable
  }

  /** One more than the greatest rank among the slots that `r` may enter before anything is
      consumed; zero when there is none. */
  function LeftRank(g: Grammar, r: Rule): nat
  {
    match r
    case And(a, b) => if Nullable(g, a) then Max(LeftRank(g, a), LeftRank(g, b)) else LeftRank(g, a)
    case Or(a, b) => Max(LeftRank(g, a), LeftRank(g, b))
    case Exception(a, b) => Max(LeftRank(g, a), LeftRank(g, b))
    case Iteration(a, _, _) => LeftRank(g, a)
    case Not(a) => LeftRank(g, a)
    case Extractor(a, _) => LeftRank(g, a)
    case Error(a, _) => LeftRank(g, a)
    case Ref(i) => if i < |g.claims| then g.claims[i].rank + 1 else 0
    case _ => 0
  }

  function Max(a: nat, b: nat): nat { if a < b then b else a }

  /** No unlimited iteration in `r` has a body that may succeed without consuming, and every
      slot that `r` names exists. */
  predicate Productive(g: Grammar, r: Rule)
  {
    match r
    case And(a, b) => Productive(g, a) && Productive(g, b)
    case Or(a, b) => Productive(g, a) && Productive(g, b)
    case Exception(a, b) => Productive(g, a) && Productive(g, b)
    case Iteration(a, _, max) => Productive(g, a) && (max < 0 ==> !Nullable(g, a))
    case Not(a) => Productive(g, a)
    case Extractor(a, _) => Productive(g, a)
    case Error(a, _) => Productive(g, a)
    case Ref(i) => i < |g.slots|
    case _ => true
  }

  /** The claims are true of what the slots hold: no slot reaches itself again without consuming
      input (left recursion), because ranks fall along such chains. */
  ghost predicate WellFormed(g: Grammar)
  {
    && |g.claims| == |g.slots|
    && forall i {:trigger SlotFits(g, g.slots[i], g.claims[i])} ::
         0 <= i < |g.slots| ==> SlotFits(g, g.slots[i], g.claims[i])
  }

  predicate SlotFits(g: Grammar, slot: Slot, claim: Claim)
  {
    match slot
    case Unassigned => claim.nullable
    case Assigned(body) =>
      && Productive(g, body)
      && (Nullable(g, body) ==> claim.nullable)
      && LeftRank(g, body) <= claim.rank
  }

  // ---- checking compound rules ----

  /** Consumes when it succeeds, passes the check, and enters only slots of rank below `rank`
      before it has consumed. */
  predicate Consumes(g: Grammar, r: Rule, rank: nat)
  {
    Productive(g, r) && !Nullable(g, r) && LeftRank(g, r) <= rank
  }

  /** A conjunction whose first part consumes. */
  lemma AndConsumes(g: Grammar, a: Rule, b: Rule, rank: nat)
    requires Consumes(g, a, rank) && Productive(g, b)
    ensures Consumes(g, And(a, b), rank)
  {
  }

  lemma And3Consumes(g: Grammar, a: Rule, b: Rule, c: Rule, rank: nat)
    requires Consumes(g, a, rank) && Productive(g, b) && Productive(g, c)
    ensures Consumes(g, And3(a, b, c), rank)
  {
    AndConsumes(g, a, b, rank);
    AndConsumes(g, And(a, b), c, rank);
  }

  lemma And5Consumes(g: Grammar, a: Rule, b: Rule, c: Rule, d: Rule, e: Rule, rank: nat)
    requires Consumes(g, a, rank) && Productive(g, b) && Productive(g, c) && Productive(g, d) && Productive(g, e)
    ensures Consumes(g, And5(a, b, c, d, e), rank)
  {
    And3Consumes(g, a, b, c, rank);
    AndConsumes(g, And3(a, b, c), d, rank);
    AndConsumes(g, And4(a, b, c, d), e, rank);
  }

  /** A conjunction whose first part may match nothing and whose second consumes. */
  lemma EmptyThenConsumes(g: Grammar, a: Rule, b: Rule, rank: nat)
    requires Productive(g, a) && LeftRank(g, a) <= rank && Consumes(g, b, rank)
    ensures Consumes(g, And(a, b), rank)
  {
  }

  lemma {:induction false} ChoiceConsumes(g: Grammar, rs: seq<Rule>, rank: nat)
    requires rs != [] && forall r :: r in rs ==> Consumes(g, r, rank)
    ensures Consumes(g, Choice(rs), rank)
  {
    if |rs| > 1 {
      ChoiceConsumes(g, rs[..|rs| - 1], rank);
      assert rs[|rs| - 1] in rs;
    }
  }

  lemma WrappedConsumes(g: Grammar, a: Rule, action: ActionId, rank: nat)
    requires Consumes(g, a, rank)
    ensures Consumes(g, Extractor(a, action), rank) && Consumes(g, Plus(a), rank)
    ensures Productive(g, Star(a)) && LeftRank(g, Star(a)) <= rank
    ensures Productive(g, Maybe(a)) && LeftRank(g, Maybe(a)) <= rank
  {
  }

  lemma LeafConsumes(g: Grammar, r: Rule)
    requires r.AnyChar? || r.Char? || r.CType? || (r.Literal? && r.lit != "")
    ensures Consumes(g, r, 0)
  {
  }
}
