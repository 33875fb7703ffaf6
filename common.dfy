/** The shared vocabulary of the engine: capacity constants, aggregate and
    comparison operators with their algebra, run-time values, and the
    AST records a parsed query is made of (include/parser/common.h). */
module Common {
  import opened Wrappers

  // Fixed capacities of the parser's containers.
  const MaxNCols: nat := 32
  const MaxAndTerms: nat := 8
  const MaxOrTerms: nat := 8
  // At most two tables are ever joined.
  const MaxTables: nat := 2

  datatype AggOp = NONE | COUNT | SUM | MAX | MIN | AVG

  /** The printable name of an aggregate. */
  function AggToStr(agg: AggOp): (r: string)
    ensures |r| >= 3
  {
    match agg
    case NONE => "NONE"
    case COUNT => "COUNT"
    case SUM => "SUM"
    case MAX => "MAX"
    case MIN => "MIN"
    case AVG => "AVG"
  }

  lemma AggToStrInjective(a: AggOp, b: AggOp)
    ensures AggToStr(a) == AggToStr(b) ==> a == b
  {
  }

  datatype CompOp = EQ | GT | LT | GEQ | LEQ | NEQ

  // ---------------------------------------------------------------------
  // Run-time values and their order

  /** A column or literal value: 64-bit integers, double literals (as exact
      reals) and strings. */
  datatype Value = Int(i: int) | Real(r: real) | Str(s: string)

  predicate IsNumber(v: Value) { v.Int? || v.Real? }

  function Num(v: Value): real
    requires IsNumber(v)
  {
    if v.Int? then v.i as real else v.r
  }

  /** Lexicographic order on strings, a proper prefix being smaller
      (the order of std::string_view). */
  predicate StrLess(a: string, b: string)
  {
    if |a| == 0 then |b| > 0
    else |b| > 0 && (a[0] < b[0] || (a[0] == b[0] && StrLess(a[1..], b[1..])))
  }

  /** The order the comparison operators use. Numbers compare numerically
      (an int64 against a double converts the integer); strings compare
      lexicographically. Numbers and strings are never compared by the
      source (that does not type-check); the model puts numbers first so
      that the order is total. */
  predicate Less(a: Value, b: Value)
  {
    if IsNumber(a) && IsNumber(b) then Num(a) < Num(b)
    else if IsNumber(a) then true
    else if IsNumber(b) then false
    else StrLess(a.s, b.s)
  }

  /** Neither value is below the other: the meaning of `==`. */
  predicate Same(a: Value, b: Value)
  {
    !Less(a, b) && !Less(b, a)
  }

  /** to_operator: the relation each comparison operator denotes. */
  predicate ToOperator(cop: CompOp, a: Value, b: Value)
  {
    match cop
    case EQ => Same(a, b)
    case GT => Less(b, a)
    case LT => Less(a, b)
    case GEQ => !Less(a, b)
    case LEQ => !Less(b, a)
    case NEQ => !Same(a, b)
  }

  /** invert: the operator that gives the same answer with the operands swapped. */
  function Invert(cop: CompOp): CompOp
  {
    match cop
    case EQ => EQ
    case GT => LT
    case LT => GT
    case GEQ => LEQ
    case LEQ => GEQ
    case NEQ => NEQ
  }

  /** negate: the operator of the logical complement. */
  function Negate(cop: CompOp): CompOp
  {
    match cop
    case EQ => NEQ
    case GT => LEQ
    case LT => GEQ
    case GEQ => LT
    case LEQ => GT
    case NEQ => EQ
  }

  /** to_str: the SQL spelling of an operator. */
  function ToStr(cop: CompOp): (r: string)
    ensures 1 <= |r| <= 2
  {
    match cop
    case EQ => "="
    case GT => ">"
    case LT => "<"
    case GEQ => ">="
    case LEQ => "<="
    case NEQ => "<>"
  }

  lemma NegateInvolution(c: CompOp)
    ensures Negate(Negate(c)) == c
    ensures Negate(c) != c
  {
  }

  lemma InvertInvolution(c: CompOp)
    ensures Invert(Invert(c)) == c
    ensures Invert(c) == c <==> c == EQ || c == NEQ
  {
  }

  lemma NegateMeaning(c: CompOp, a: Value, b: Value)
    ensures ToOperator(Negate(c), a, b) == !ToOperator(c, a, b)
  {
  }

  lemma InvertMeaning(c: CompOp, a: Value, b: Value)
    ensures ToOperator(Invert(c), a, b) == ToOperator(c, b, a)
  {
  }

  lemma ToStrInjective(a: CompOp, b: CompOp)
    ensures ToStr(a) == ToStr(b) ==> a == b
  {
  }

  // ---------------------------------------------------------------------
  // The order is a strict total order

  lemma {:induction false} StrLessIrreflexive(a: string)
    ensures !StrLess(a, a)
  {
    if |a| > 0 {
      StrLessIrreflexive(a[1..]);
    }
  }

  lemma {:induction false} StrLessTransitive(a: string, b: string, c: string)
    requires StrLess(a, b) && StrLess(b, c)
    ensures StrLess(a, c)
  {
    if |a| > 0 && a[0] == b[0] && b[0] == c[0] {
      StrLessTransitive(a[1..], b[1..], c[1..]);
    }
  }

  lemma {:induction false} StrTrichotomy(a: string, b: string)
    ensures a == b || StrLess(a, b) || StrLess(b, a)
  {
    if |a| > 0 && |b| > 0 && a[0] == b[0] {
      StrTrichotomy(a[1..], b[1..]);
      if a[1..] == b[1..] {
        assert a == [a[0]] + a[1..] && b == [b[0]] + b[1..];
      }
    }
  }

  lemma LessIrreflexive(a: Value)
    ensures !Less(a, a)
  {
    if a.Str? {
      StrLessIrreflexive(a.s);
    }
  }

  lemma LessTransitive(a: Value, b: Value, c: Value)
    requires Less(a, b) && Less(b, c)
    ensures Less(a, c)
  {
    if a.Str? && b.Str? && c.Str? {
      StrLessTransitive(a.s, b.s, c.s);
    }
  }

  /** Two values of the same kind are Same exactly when they are equal, so
      EQ and NEQ are equality and disequality there, and GEQ and LEQ are
      "greater or equal" and "less or equal". */
  lemma SameIsEquality(a: Value, b: Value)
    requires (a.Int? && b.Int?) || (a.Real? && b.Real?) || (a.Str? && b.Str?)
    ensures Same(a, b) <==> a == b
    ensures ToOperator(GEQ, a, b) <==> ToOperator(GT, a, b) || a == b
    ensures ToOperator(LEQ, a, b) <==> ToOperator(LT, a, b) || a == b
  {
    LessIrreflexive(a);
    if a.Str? {
      StrTrichotomy(a.s, b.s);
      if a.s == b.s {
        assert a == b;
      } else if StrLess(a.s, b.s) && StrLess(b.s, a.s) {
        StrLessTransitive(a.s, b.s, a.s);
        StrLessIrreflexive(a.s);
      }
    }
  }

  // ---------------------------------------------------------------------
  // AST records

  /** A column reference inside a condition: `table.column` or `column`. */
  datatype BasicColumnName = BasicColumnName(table: string, column: string)

  /** An entry of the select list or of the group-by keys. An empty column
      with COUNT is COUNT(*). */
  datatype ColumnName = ColumnName(table: string, column: string, alias: string, agg: AggOp)

  datatype TableName = TableName(name: string, alias: string)

  /** The FROM clause: one table, or two. */
  datatype TableNames = TableNames(first: TableName, second: Option<TableName>)

  /** The tables in order, as a list of length one or two. */
  function Tables(tns: TableNames): (r: seq<TableName>)
    ensures 1 <= |r| <= MaxTables && r[0] == tns.first
    ensures |r| == 2 <==> tns.second.Some?
    ensures |r| == 2 ==> r[1] == tns.second.value
  {
    if tns.second.Some? then [tns.first, tns.second.value] else [tns.first]
  }

  /** The right-hand side of a comparison: a column (two-sided factor) or a
      literal (one-sided factor). */
  datatype Rhs = ColumnRhs(col: BasicColumnName) | StrRhs(s: string) | IntRhs(i: int) | FloatRhs(f: real)

  datatype BooleanFactor = BooleanFactor(cop: CompOp, lhs: BasicColumnName, rhs: Rhs)

  predicate IsTwoSided(bf: BooleanFactor) { bf.rhs.ColumnRhs? }

  /** A conjunction of factors and a disjunction of conjunctions. */
  type AndTerms = seq<BooleanFactor>
  type OrTerms = seq<AndTerms>

  predicate AllTwoSided(dnf: OrTerms)
  {
    forall i, j :: 0 <= i < |dnf| && 0 <= j < |dnf[i]| ==> IsTwoSided(dnf[i][j])
  }

  /** A parsed query: select list, tables, join condition (two-sided
      factors, OR of ANDs), where condition (one-sided factors, OR of ANDs)
      and group-by keys. */
  datatype Query = Query(cns: seq<ColumnName>, tns: TableNames, joinCondition: OrTerms,
                         whereCondition: OrTerms, groupByKeys: seq<ColumnName>)

  /** A result row or a record: its values in field order. */
  type Tuple = seq<Value>
}
