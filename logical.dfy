/** Semantic actions of the condition productions
    (include/parser/logical.h): column references, comparison-operator
    tokens, boolean factors (with the literal-left and NOT forms
    normalised through invert and negate) and the AND/OR lists. */
module Logical {
  import opened Wrappers
  import opened Common

  /** basic_column_name(sql_identifier). */
  function BareBasicColumn(cn: string): (r: BasicColumnName)
    ensures r.table == "" && r.column == cn
  {
    BasicColumnName("", cn)
  }

  /** basic_column_name(single_entity_reference '.' sql_identifier). */
  function QualifiedBasicColumn(tn: string, cn: string): (r: BasicColumnName)
    ensures r.table == tn && r.column == cn
  {
    BasicColumnName(tn, cn)
  }

  /** comp_ops: the operator a comparison token denotes. */
  function CompOpOfToken(tok: string): (r: Option<CompOp>)
    ensures r.Some? ==> ToStr(r.value) == tok
  {
    if tok == "=" then Some(EQ)
    else if tok == ">" then Some(GT)
    else if tok == "<" then Some(LT)
    else if tok == ">=" then Some(GEQ)
    else if tok == "<=" then Some(LEQ)
    else if tok == "<>" then Some(NEQ)
    else None
  }

  /** Every operator's spelling is read back as that operator, so the six
      tokens are exactly the spellings of the six operators. */
  lemma CompOpTokenRoundTrip(c: CompOp, tok: string)
    ensures CompOpOfToken(ToStr(c)) == Some(c)
    ensures ToStr(c) == tok ==> CompOpOfToken(tok) == Some(c)
    ensures CompOpOfToken(tok).Some? ==> ToStr(CompOpOfToken(tok).value) == tok
  {
  }

  /** The literals a one-sided factor can carry. */
  datatype Literal = StrLit(s: string) | IntLit(i: int) | FloatLit(f: real)

  function LiteralRhs(lit: Literal): (r: Rhs)
    ensures !r.ColumnRhs?
  {
    match lit
    case StrLit(s) => StrRhs(s)
    case IntLit(i) => IntRhs(i)
    case FloatLit(f) => FloatRhs(f)
  }

  function LiteralValue(lit: Literal): Value
  {
    match lit
    case StrLit(s) => Str(s)
    case IntLit(i) => Int(i)
    case FloatLit(f) => Real(f)
  }

  /** boolean_factor_one_side(col op literal): the operator is kept. */
  function ColumnLeftFactor(lhs: BasicColumnName, cop: CompOp, lit: Literal): (r: BooleanFactor)
    ensures r.cop == cop && r.lhs == lhs && r.rhs == LiteralRhs(lit)
  {
    BooleanFactor(cop, lhs, LiteralRhs(lit))
  }

  /** boolean_factor_one_side(literal op col): the column goes left and
      the operator is inverted. */
  function LiteralLeftFactor(lit: Literal, cop: CompOp, lhs: BasicColumnName): (r: BooleanFactor)
    ensures r.cop == Invert(cop) && r.lhs == lhs && r.rhs == LiteralRhs(lit)
  {
    BooleanFactor(Invert(cop), lhs, LiteralRhs(lit))
  }

  /** boolean_factor(NOT factor): the operator is negated, for one-sided
      and two-sided factors alike. */
  function NotFactor(bf: BooleanFactor): (r: BooleanFactor)
    ensures r.cop == Negate(bf.cop) && r.lhs == bf.lhs && r.rhs == bf.rhs
    ensures IsTwoSided(r) == IsTwoSided(bf)
  {
    bf.(cop := Negate(bf.cop))
  }

  /** boolean_factor_two_side(col op col): operand order is kept. */
  function TwoSidedFactor(lhs: BasicColumnName, cop: CompOp, rhs: BasicColumnName): (r: BooleanFactor)
    ensures IsTwoSided(r) && r.cop == cop && r.lhs == lhs && r.rhs.col == rhs
  {
    BooleanFactor(cop, lhs, ColumnRhs(rhs))
  }

  // ---------------------------------------------------------------------
  // What a condition means for a given assignment of values to columns

  type Env = BasicColumnName -> Value

  function RhsValue(env: Env, rhs: Rhs): Value
  {
    match rhs
    case ColumnRhs(c) => env(c)
    case StrRhs(s) => Str(s)
    case IntRhs(i) => Int(i)
    case FloatRhs(f) => Real(f)
  }

  predicate FactorHolds(env: Env, bf: BooleanFactor)
  {
    ToOperator(bf.cop, env(bf.lhs), RhsValue(env, bf.rhs))
  }

  /** `col op literal` means what it says. */
  lemma ColumnLeftMeaning(env: Env, lhs: BasicColumnName, cop: CompOp, lit: Literal)
    ensures FactorHolds(env, ColumnLeftFactor(lhs, cop, lit)) == ToOperator(cop, env(lhs), LiteralValue(lit))
  {
    assert RhsValue(env, LiteralRhs(lit)) == LiteralValue(lit);
  }

  /** `literal op col` holds exactly when the comparison, read with the
      literal on the left, holds: normalising by invert keeps the meaning. */
  lemma LiteralLeftMeaning(env: Env, lit: Literal, cop: CompOp, lhs: BasicColumnName)
    ensures FactorHolds(env, LiteralLeftFactor(lit, cop, lhs)) == ToOperator(cop, LiteralValue(lit), env(lhs))
  {
    assert RhsValue(env, LiteralRhs(lit)) == LiteralValue(lit);
    InvertMeaning(cop, env(lhs), LiteralValue(lit));
  }

  /** NOT is the complement, and two NOTs cancel. */
  lemma NotMeaning(env: Env, bf: BooleanFactor)
    ensures FactorHolds(env, NotFactor(bf)) == !FactorHolds(env, bf)
    ensures NotFactor(NotFactor(bf)) == bf
  {
    NegateMeaning(bf.cop, env(bf.lhs), RhsValue(env, bf.rhs));
    NegateInvolution(bf.cop);
  }

  /** `col op col` compares the left column with the right one. */
  lemma TwoSidedMeaning(env: Env, lhs: BasicColumnName, cop: CompOp, rhs: BasicColumnName)
    ensures FactorHolds(env, TwoSidedFactor(lhs, cop, rhs)) == ToOperator(cop, env(lhs), env(rhs))
  {
  }

  // ---------------------------------------------------------------------
  // AND and OR lists

  /** boolean_and_terms(factor): a one-element conjunction. */
  function SingleFactor(bf: BooleanFactor): (r: AndTerms)
    ensures |r| == 1 && r[0] == bf
  {
    [bf]
  }

  /** boolean_and_terms(and_terms AND factor): push_back onto a list of
      capacity MaxAndTerms. */
  function AppendFactor(bat: AndTerms, bf: BooleanFactor): (r: AndTerms)
    requires |bat| < MaxAndTerms
    ensures |r| == |bat| + 1 <= MaxAndTerms && r[..|bat|] == bat && r[|bat|] == bf
  {
    bat + [bf]
  }

  /** boolean_or_terms(and_terms): a one-element disjunction. */
  function SingleConjunction(bat: AndTerms): (r: OrTerms)
    ensures |r| == 1 && r[0] == bat
  {
    [bat]
  }

  /** boolean_or_terms(or_terms OR and_terms): push_back onto a list of
      capacity MaxOrTerms. */
  function AppendConjunction(bot: OrTerms, bat: AndTerms): (r: OrTerms)
    requires |bot| < MaxOrTerms
    ensures |r| == |bot| + 1 <= MaxOrTerms && r[..|bot|] == bot && r[|bot|] == bat
  {
    bot + [bat]
  }

  predicate AndHolds(env: Env, bat: AndTerms)
  {
    forall j :: 0 <= j < |bat| ==> FactorHolds(env, bat[j])
  }

  /** A disjunction holds when some conjunction holds, and the empty
      disjunction (no WHERE or ON clause) holds always. */
  predicate OrHolds(env: Env, bot: OrTerms)
  {
    |bot| == 0 || exists i :: 0 <= i < |bot| && AndHolds(env, bot[i])
  }

  /** AND and OR lists mean the conjunction and the disjunction of their
      parts, in the order they were written. */
  lemma ListMeaning(env: Env, bat: AndTerms, bf: BooleanFactor, bot: OrTerms)
    requires |bat| < MaxAndTerms && |bot| < MaxOrTerms
    ensures AndHolds(env, SingleFactor(bf)) == FactorHolds(env, bf)
    ensures AndHolds(env, AppendFactor(bat, bf)) == (AndHolds(env, bat) && FactorHolds(env, bf))
    ensures OrHolds(env, SingleConjunction(bat)) == AndHolds(env, bat)
    ensures |bot| > 0 ==> OrHolds(env, AppendConjunction(bot, bat)) == (OrHolds(env, bot) || AndHolds(env, bat))
  {
    var r := AppendFactor(bat, bf);
    assert forall j :: 0 <= j < |bat| ==> r[j] == bat[j];
    var o := AppendConjunction(bot, bat);
    assert forall i :: 0 <= i < |bot| ==> o[i] == bot[i];
  }
}
