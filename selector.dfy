/** Selectors (include/operator/selector.h): the per-factor index,
    operator and rhs-type lists, the comparison leaves, the AND/OR
    combinators, the CNF and DNF selectors built from a padded matrix of
    factors, and the sift/split of a CNF by table tag.

    A selector is a predicate over a joined tuple. The engine builds it
    as a nest of lambdas; the model builds a Selector tree and gives it
    its meaning through Eval. */
module Selector {
  import opened Wrappers
  import opened Common
  import opened Schema
  import opened Logical
  import Normalise

  // ---------------------------------------------------------------------
  // Column positions and padding values

  /** The type tag of a factor's right-hand side. */
  datatype RHSTypeTag = COLNAME | INT | DOUBLE | STRING

  /** The value-initialised tag that pads a tag list. */
  const DefaultTag: RHSTypeTag := COLNAME

  /** A value-initialised BooleanFactor: EQ, empty column reference on the
      left, and the variant's first alternative (an empty column) on the
      right. It pads the rows of an aligned matrix. */
  const DefaultFactor: BooleanFactor := BooleanFactor(EQ, BasicColumnName("", ""), ColumnRhs(BasicColumnName("", "")))

  /** get_index<S1, S2>: the position of a resolved column in the tuple the
      selector reads. With one schema that is the field's position; with
      two the tuple is S1's fields followed by S2's, and the tag "0" picks
      S1. */
  function ColumnIndex(s1: Schema, s2: Option<Schema>, c: BasicColumnName): nat
  {
    if s2.None? || c.table == "0" then GetIndex(s1, c.column)
    else |s1.fields| + GetIndex(s2.value, c.column)
  }

  /** A resolved column reference reads the value of the field it names
      from a tuple that lists S1's record and then S2's. */
  lemma ColumnIndexReads(s1: Schema, s2: Schema, r1: map<string, Value>, r2: map<string, Value>, c: BasicColumnName)
    requires IsRecord(s1, r1) && IsRecord(s2, r2)
    requires c.table == "0" ==> c.column in MemberList(s1)
    requires c.table != "0" ==> c.column in MemberList(s2)
    ensures var t := SchemaToTuple(s1, r1) + SchemaToTuple(s2, r2);
            ColumnIndex(s1, Some(s2), c) < |t| &&
            t[ColumnIndex(s1, Some(s2), c)] == (if c.table == "0" then r1[c.column] else r2[c.column])
  {
    var t1, t2 := SchemaToTuple(s1, r1), SchemaToTuple(s2, r2);
    if c.table == "0" {
      TupleAtIndex(s1, r1, c.column);
      assert (t1 + t2)[GetIndex(s1, c.column)] == t1[GetIndex(s1, c.column)];
    } else {
      TupleAtIndex(s2, r2, c.column);
      assert (t1 + t2)[|t1| + GetIndex(s2, c.column)] == t2[GetIndex(s2, c.column)];
    }
  }

  /** The entry of an index list for one factor: the lhs position, or for
      the rhs list the rhs position when the rhs is a column (0 for a
      literal, which the list leaves at its default). */
  function FactorIndex(s1: Schema, s2: Option<Schema>, isLhs: bool, bf: BooleanFactor): nat
  {
    if isLhs then ColumnIndex(s1, s2, bf.lhs)
    else if bf.rhs.ColumnRhs? then ColumnIndex(s1, s2, bf.rhs.col)
    else 0
  }

  /** The tag of an rhs: COLNAME for a column, otherwise by the literal's
      alternative. */
  function RhsTag(rhs: Rhs): (r: RHSTypeTag)
    ensures r == COLNAME <==> rhs.ColumnRhs?
    ensures r == INT <==> rhs.IntRhs?
    ensures r == DOUBLE <==> rhs.FloatRhs?
    ensures r == STRING <==> rhs.StrRhs?
  {
    match rhs
    case ColumnRhs(_) => COLNAME
    case IntRhs(_) => INT
    case FloatRhs(_) => DOUBLE
    case StrRhs(_) => STRING
  }

  // ---------------------------------------------------------------------
  // The 1-d and 2-d list builders

  /** The contracts of the three 1-d builders: a list of capacity cap
      holding one entry per factor for the first len factors and the
      value-initialised default after them. */
  predicate IndexRow(s1: Schema, s2: Option<Schema>, isLhs: bool, cap: nat, len: nat, bfs: seq<BooleanFactor>, row: seq<nat>)
    requires len <= |bfs|
  {
    |row| == cap &&
    (forall i :: 0 <= i < len && i < cap ==> row[i] == FactorIndex(s1, s2, isLhs, bfs[i])) &&
    (forall i :: len <= i < cap ==> row[i] == 0)
  }

  predicate CopRow(cap: nat, len: nat, bfs: seq<BooleanFactor>, row: seq<CompOp>)
    requires len <= |bfs|
  {
    |row| == cap &&
    (forall i :: 0 <= i < len && i < cap ==> row[i] == bfs[i].cop) &&
    (forall i :: len <= i < cap ==> row[i] == EQ)
  }

  predicate TagRow(cap: nat, len: nat, bfs: seq<BooleanFactor>, row: seq<RHSTypeTag>)
    requires len <= |bfs|
  {
    |row| == cap &&
    (forall i :: 0 <= i < len && i < cap ==> row[i] == RhsTag(bfs[i].rhs)) &&
    (forall i :: len <= i < cap ==> row[i] == DefaultTag)
  }

  /** make_indices_1d: positions below len from the factors, the rest 0. */
  method MakeIndices1d(s1: Schema, s2: Option<Schema>, isLhs: bool, cap: nat, len: nat, bfs: seq<BooleanFactor>)
    returns (indices: seq<nat>)
    requires len <= cap && len <= |bfs|
    ensures IndexRow(s1, s2, isLhs, cap, len, bfs, indices)
  {
    var a := new nat[cap](_ => 0);
    var i := 0;
    while i < len
      invariant 0 <= i <= len
      invariant forall k :: 0 <= k < i ==> a[k] == FactorIndex(s1, s2, isLhs, bfs[k])
      invariant forall k :: i <= k < cap ==> a[k] == 0
    {
      if isLhs {
        a[i] := ColumnIndex(s1, s2, bfs[i].lhs);
      } else if bfs[i].rhs.ColumnRhs? {
        a[i] := ColumnIndex(s1, s2, bfs[i].rhs.col);
      }
      i := i + 1;
    }
    indices := a[..];
  }

  /** make_cop_list_1d: the operators of the first len factors, then EQ
      (CompOp's zero value). */
  method MakeCopList1d(cap: nat, len: nat, bfs: seq<BooleanFactor>) returns (cops: seq<CompOp>)
    requires len <= cap && len <= |bfs|
    ensures CopRow(cap, len, bfs, cops)
  {
    var a := new CompOp[cap](_ => EQ);
    var i := 0;
    while i < len
      invariant 0 <= i <= len
      invariant forall k :: 0 <= k < i ==> a[k] == bfs[k].cop
      invariant forall k :: i <= k < cap ==> a[k] == EQ
    {
      a[i] := bfs[i].cop;
      i := i + 1;
    }
    cops := a[..];
  }

  /** make_rhs_type_list_1d: the rhs tags of the first len factors, then
      the default tag. */
  method MakeRhsTypeList1d(cap: nat, len: nat, bfs: seq<BooleanFactor>) returns (tags: seq<RHSTypeTag>)
    requires len <= cap && len <= |bfs|
    ensures TagRow(cap, len, bfs, tags)
  {
    var a := new RHSTypeTag[cap](_ => DefaultTag);
    var i := 0;
    while i < len
      invariant 0 <= i <= len
      invariant forall k :: 0 <= k < i ==> a[k] == RhsTag(bfs[k].rhs)
      invariant forall k :: i <= k < cap ==> a[k] == DefaultTag
    {
      if bfs[i].rhs.ColumnRhs? {
        a[i] := COLNAME;
      } else if bfs[i].rhs.IntRhs? {
        a[i] := INT;
      } else if bfs[i].rhs.FloatRhs? {
        a[i] := DOUBLE;
      } else {
        a[i] := STRING;
      }
      i := i + 1;
    }
    tags := a[..];
  }

  /** A matrix of factors: one row per clause, every row of width cap, and
      row i's factors in its first lens[i] positions. */
  predicate Matrix(cap: nat, lens: seq<nat>, m: seq<seq<BooleanFactor>>)
  {
    |lens| == |m| && forall i :: 0 <= i < |m| ==> lens[i] <= cap && |m[i]| == cap
  }

  /** make_indices_2d: make_indices_1d on every row with that row's length. */
  method MakeIndices2d(s1: Schema, s2: Option<Schema>, isLhs: bool, cap: nat, lens: seq<nat>, m: seq<seq<BooleanFactor>>)
    returns (r: seq<seq<nat>>)
    requires Matrix(cap, lens, m)
    ensures |r| == |m| && forall i :: 0 <= i < |m| ==> IndexRow(s1, s2, isLhs, cap, lens[i], m[i], r[i])
  {
    r := [];
    var i := 0;
    while i < |m|
      invariant 0 <= i <= |m|
      invariant |r| == i && forall k :: 0 <= k < i ==> IndexRow(s1, s2, isLhs, cap, lens[k], m[k], r[k])
    {
      var row := MakeIndices1d(s1, s2, isLhs, cap, lens[i], m[i]);
      r := r + [row];
      i := i + 1;
    }
  }

  /** make_cop_list_2d. */
  method MakeCopList2d(cap: nat, lens: seq<nat>, m: seq<seq<BooleanFactor>>) returns (r: seq<seq<CompOp>>)
    requires Matrix(cap, lens, m)
    ensures |r| == |m| && forall i :: 0 <= i < |m| ==> CopRow(cap, lens[i], m[i], r[i])
  {
    r := [];
    var i := 0;
    while i < |m|
      invariant 0 <= i <= |m|
      invariant |r| == i && forall k :: 0 <= k < i ==> CopRow(cap, lens[k], m[k], r[k])
    {
      var row := MakeCopList1d(cap, lens[i], m[i]);
      r := r + [row];
      i := i + 1;
    }
  }

  /** make_rhs_type_list_2d. */
  method MakeRhsTypeList2d(cap: nat, lens: seq<nat>, m: seq<seq<BooleanFactor>>) returns (r: seq<seq<RHSTypeTag>>)
    requires Matrix(cap, lens, m)
    ensures |r| == |m| && forall i :: 0 <= i < |m| ==> TagRow(cap, lens[i], m[i], r[i])
  {
    r := [];
    var i := 0;
    while i < |m|
      invariant 0 <= i <= |m|
      invariant |r| == i && forall k :: 0 <= k < i ==> TagRow(cap, lens[k], m[k], r[k])
    {
      var row := MakeRhsTypeList1d(cap, lens[i], m[i]);
      r := r + [row];
      i := i + 1;
    }
  }

  // ---------------------------------------------------------------------
  // Selectors and what they mean

  /** The right operand of a comparison: a literal captured by value, or a
      second position in the tuple. */
  datatype Operand = Literal(v: Value) | Column(idx: nat)

  datatype Selector =
    | AlwaysTrue                                   // and_construct() / or_construct()
    | Compare(cop: CompOp, lhs: nat, rhs: Operand) // make_selector
    | Both(a: Selector, b: Selector)               // s(tuple) and rec(tuple)
    | Either(a: Selector, b: Selector)             // s(tuple) or rec(tuple)

  /** A selector applied to a tuple. A position past the tuple's end cannot
      occur in the engine (std::get on it does not compile); the model
      reads such a comparison as false. */
  predicate Eval(s: Selector, t: Tuple)
  {
    match s
    case AlwaysTrue => true
    case Compare(cop, l, Literal(v)) => l < |t| && ToOperator(cop, t[l], v)
    case Compare(cop, l, Column(r)) => l < |t| && r < |t| && ToOperator(cop, t[l], t[r])
    case Both(a, b) => Eval(a, t) && Eval(b, t)
    case Either(a, b) => Eval(a, t) || Eval(b, t)
  }

  /** std::get<RHS<tag>>(rhs): the int64 for INT, the double for DOUBLE,
      the string for any other tag; the wrong alternative fails. */
  function RhsLiteral(tag: RHSTypeTag, rhs: Rhs): (r: Result<Value>)
    ensures r.Ok? <==> (tag == INT && rhs.IntRhs?) || (tag == DOUBLE && rhs.FloatRhs?) ||
                       ((tag == COLNAME || tag == STRING) && rhs.StrRhs?)
    ensures r.Err? ==> r.error == BadVariantAccess
    ensures forall env :: r.Ok? ==> r.value == RhsValue(env, rhs)
    ensures !rhs.ColumnRhs? && tag == RhsTag(rhs) ==> r.Ok?
  {
    match tag
    case INT => if rhs.IntRhs? then Ok(Int(rhs.i)) else Err(BadVariantAccess)
    case DOUBLE => if rhs.FloatRhs? then Ok(Real(rhs.f)) else Err(BadVariantAccess)
    case _ => if rhs.StrRhs? then Ok(Str(rhs.s)) else Err(BadVariantAccess)
  }

  /** make_selector: a one-sided selector compares the lhs position with
      the factor's literal, a two-sided one compares two positions; the
      operator and positions are the ones passed in. */
  function MakeSelector(oneSide: bool, lhsIdx: nat, rhsIdx: nat, cop: CompOp, tag: RHSTypeTag, bf: BooleanFactor)
    : (r: Result<Selector>)
    ensures r.Ok? <==> !oneSide || RhsLiteral(tag, bf.rhs).Ok?
    ensures r.Err? ==> r.error == BadVariantAccess
    ensures r.Ok? && oneSide ==>
              forall t :: Eval(r.value, t) == (lhsIdx < |t| && ToOperator(cop, t[lhsIdx], RhsLiteral(tag, bf.rhs).value))
    ensures r.Ok? && !oneSide ==>
              forall t :: Eval(r.value, t) == (lhsIdx < |t| && rhsIdx < |t| && ToOperator(cop, t[lhsIdx], t[rhsIdx]))
  {
    if oneSide then
      var v :- RhsLiteral(tag, bf.rhs);
      Ok(Compare(cop, lhsIdx, Literal(v)))
    else
      Ok(Compare(cop, lhsIdx, Column(rhsIdx)))
  }

  /** and_construct: the left-to-right conjunction; true for no selectors. */
  function AndConstruct(ss: seq<Selector>): (r: Selector)
    ensures forall t :: Eval(r, t) == (forall i :: 0 <= i < |ss| ==> Eval(ss[i], t))
  {
    if |ss| == 0 then AlwaysTrue
    else if |ss| == 1 then ss[0]
    else Both(ss[0], AndConstruct(ss[1..]))
  }

  /** or_construct: the left-to-right disjunction; true (not false) for no
      selectors. */
  function OrConstruct(ss: seq<Selector>): (r: Selector)
    ensures forall t :: Eval(r, t) == (|ss| == 0 || exists i :: 0 <= i < |ss| && Eval(ss[i], t))
  {
    if |ss| == 0 then AlwaysTrue
    else if |ss| == 1 then ss[0]
    else
      var rec := OrConstruct(ss[1..]);
      assert forall t :: Eval(rec, t) == exists i :: 1 <= i < |ss| && Eval(ss[i], t) by {
        forall t ensures Eval(rec, t) == exists i :: 1 <= i < |ss| && Eval(ss[i], t) {
          if Eval(rec, t) {
            var i :| 0 <= i < |ss[1..]| && Eval(ss[1..][i], t);
            assert Eval(ss[i + 1], t);
          }
        }
      }
      Either(ss[0], rec)
  }

  /** A parameter-pack expansion whose elements may fail: all the values, or a
      failure of one of them. */
  function Collect<T>(rs: seq<Result<T>>): (r: Result<seq<T>>)
    ensures r.Ok? <==> forall i :: 0 <= i < |rs| ==> rs[i].Ok?
    ensures r.Ok? ==> (|r.value| == |rs| && forall i :: 0 <= i < |rs| ==> rs[i] == Ok(r.value[i]))
    ensures r.Err? ==> exists i :: 0 <= i < |rs| && rs[i] == Err(r.error)
  {
    if |rs| == 0 then Ok([])
    else if rs[0].Err? then Err(rs[0].error)
    else
      var rest := Collect(rs[1..]);
      assert forall i :: 1 <= i < |rs| ==> rs[i] == rs[1..][i - 1];
      if rest.Err? then rest
      else
        var r := [rs[0].value] + rest.value;
        assert forall i :: 1 <= i < |rs| ==> r[i] == rest.value[i - 1];
        Ok(r)
  }

  /** The leaves make_selector builds for the first n factors of a row,
      from the row's lists. */
  function Leaves(oneSide: bool, lhs: seq<nat>, rhs: seq<nat>, cops: seq<CompOp>, tags: seq<RHSTypeTag>,
                  bfs: seq<BooleanFactor>, n: nat): (r: seq<Result<Selector>>)
    requires n <= |lhs| && n <= |rhs| && n <= |cops| && n <= |tags| && n <= |bfs|
    ensures |r| == n && forall i :: 0 <= i < n ==> r[i] == MakeSelector(oneSide, lhs[i], rhs[i], cops[i], tags[i], bfs[i])
  {
    seq(n, i requires 0 <= i < n => MakeSelector(oneSide, lhs[i], rhs[i], cops[i], tags[i], bfs[i]))
  }

  /** make_selector_or_cons: or_construct over the row's first len leaves. */
  function MakeSelectorOrCons(oneSide: bool, lhs: seq<nat>, rhs: seq<nat>, cops: seq<CompOp>, tags: seq<RHSTypeTag>,
                              len: nat, bfs: seq<BooleanFactor>): Result<Selector>
    requires len <= |lhs| && len <= |rhs| && len <= |cops| && len <= |tags| && len <= |bfs|
  {
    var ss :- Collect(Leaves(oneSide, lhs, rhs, cops, tags, bfs, len));
    Ok(OrConstruct(ss))
  }

  /** make_selector_and_cons: and_construct over the row's first len leaves. */
  function MakeSelectorAndCons(oneSide: bool, lhs: seq<nat>, rhs: seq<nat>, cops: seq<CompOp>, tags: seq<RHSTypeTag>,
                               len: nat, bfs: seq<BooleanFactor>): Result<Selector>
    requires len <= |lhs| && len <= |rhs| && len <= |cops| && len <= |tags| && len <= |bfs|
  {
    var ss :- Collect(Leaves(oneSide, lhs, rhs, cops, tags, bfs, len));
    Ok(AndConstruct(ss))
  }

  /** The four list matrices and the factor matrix agree in shape. */
  predicate Shaped(lhs: seq<seq<nat>>, rhs: seq<seq<nat>>, cops: seq<seq<CompOp>>, tags: seq<seq<RHSTypeTag>>,
                   lens: seq<nat>, m: seq<seq<BooleanFactor>>)
  {
    |lhs| == |m| && |rhs| == |m| && |cops| == |m| && |tags| == |m| && |lens| == |m| &&
    forall i :: 0 <= i < |m| ==>
      lens[i] <= |lhs[i]| && lens[i] <= |rhs[i]| && lens[i] <= |cops[i]| && lens[i] <= |tags[i]| && lens[i] <= |m[i]|
  }

  /** The selector of one row: or-cons for a CNF clause, and-cons for a
      DNF conjunction. */
  function RowSelector(cnfRows: bool, oneSide: bool, lhs: seq<nat>, rhs: seq<nat>, cops: seq<CompOp>,
                       tags: seq<RHSTypeTag>, len: nat, bfs: seq<BooleanFactor>): Result<Selector>
    requires len <= |lhs| && len <= |rhs| && len <= |cops| && len <= |tags| && len <= |bfs|
  {
    if cnfRows then MakeSelectorOrCons(oneSide, lhs, rhs, cops, tags, len, bfs)
    else MakeSelectorAndCons(oneSide, lhs, rhs, cops, tags, len, bfs)
  }

  /** One selector per row. */
  function RowSelectors(cnfRows: bool, oneSide: bool, lhs: seq<seq<nat>>, rhs: seq<seq<nat>>, cops: seq<seq<CompOp>>,
                        tags: seq<seq<RHSTypeTag>>, lens: seq<nat>, m: seq<seq<BooleanFactor>>)
    : (r: seq<Result<Selector>>)
    requires Shaped(lhs, rhs, cops, tags, lens, m)
    ensures |r| == |m| &&
            forall i :: 0 <= i < |m| ==> r[i] == RowSelector(cnfRows, oneSide, lhs[i], rhs[i], cops[i], tags[i], lens[i], m[i])
  {
    seq(|m|, i requires 0 <= i < |m| => RowSelector(cnfRows, oneSide, lhs[i], rhs[i], cops[i], tags[i], lens[i], m[i]))
  }

  /** make_cnf_selector: AND over rows of OR over each row's first lens[i]
      factors. */
  function MakeCnfSelector(oneSide: bool, lhs: seq<seq<nat>>, rhs: seq<seq<nat>>, cops: seq<seq<CompOp>>,
                           tags: seq<seq<RHSTypeTag>>, lens: seq<nat>, m: seq<seq<BooleanFactor>>): Result<Selector>
    requires Shaped(lhs, rhs, cops, tags, lens, m)
  {
    var rows :- Collect(RowSelectors(true, oneSide, lhs, rhs, cops, tags, lens, m));
    Ok(AndConstruct(rows))
  }

  /** make_dnf_selector: OR over rows of AND over each row's first lens[i]
      factors. */
  function MakeDnfSelector(oneSide: bool, lhs: seq<seq<nat>>, rhs: seq<seq<nat>>, cops: seq<seq<CompOp>>,
                           tags: seq<seq<RHSTypeTag>>, lens: seq<nat>, m: seq<seq<BooleanFactor>>): Result<Selector>
    requires Shaped(lhs, rhs, cops, tags, lens, m)
  {
    var rows :- Collect(RowSelectors(false, oneSide, lhs, rhs, cops, tags, lens, m));
    Ok(OrConstruct(rows))
  }

  // ---------------------------------------------------------------------
  // The selectors compute the condition

  /** The value a resolved column has in the tuple. */
  function TupleEnv(s1: Schema, s2: Option<Schema>, t: Tuple): Env
  {
    (c: BasicColumnName) => if ColumnIndex(s1, s2, c) < |t| then t[ColumnIndex(s1, s2, c)] else Int(0)
  }

  /** Every column the factor mentions lies inside the tuple. */
  predicate Readable(s1: Schema, s2: Option<Schema>, t: Tuple, bf: BooleanFactor)
  {
    ColumnIndex(s1, s2, bf.lhs) < |t| && (bf.rhs.ColumnRhs? ==> ColumnIndex(s1, s2, bf.rhs.col) < |t|)
  }

  /** A factor evaluated on a tuple: it can be read, and it holds when its
      columns take their values from the tuple. */
  function FactorOn(s1: Schema, s2: Option<Schema>, t: Tuple): BooleanFactor -> bool
  {
    (bf: BooleanFactor) => Readable(s1, s2, t, bf) && FactorHolds(TupleEnv(s1, s2, t), bf)
  }

  /** The lists were produced by the builders from the matrix, and every
      factor the selector reads is one-sided exactly when oneSide. */
  predicate BuiltFrom(s1: Schema, s2: Option<Schema>, oneSide: bool, cap: nat, lhs: seq<seq<nat>>, rhs: seq<seq<nat>>,
                      cops: seq<seq<CompOp>>, tags: seq<seq<RHSTypeTag>>, lens: seq<nat>, m: seq<seq<BooleanFactor>>)
  {
    Matrix(cap, lens, m) && |lhs| == |m| && |rhs| == |m| && |cops| == |m| && |tags| == |m| &&
    (forall i :: 0 <= i < |m| ==>
       IndexRow(s1, s2, true, cap, lens[i], m[i], lhs[i]) && IndexRow(s1, s2, false, cap, lens[i], m[i], rhs[i]) &&
       CopRow(cap, lens[i], m[i], cops[i]) && TagRow(cap, lens[i], m[i], tags[i])) &&
    (forall i, j :: 0 <= i < |m| && 0 <= j < lens[i] ==> (m[i][j].rhs.ColumnRhs? <==> !oneSide))
  }

  /** The rows of the matrix without their padding. */
  function Truncated(lens: seq<nat>, m: seq<seq<BooleanFactor>>): (r: seq<seq<BooleanFactor>>)
    requires |lens| == |m| && forall i :: 0 <= i < |m| ==> lens[i] <= |m[i]|
    ensures |r| == |m| && forall i :: 0 <= i < |m| ==> r[i] == m[i][..lens[i]]
  {
    seq(|m|, i requires 0 <= i < |m| => m[i][..lens[i]])
  }

  /** A leaf built from a factor's own list entries evaluates the factor. */
  lemma LeafMeaning(s1: Schema, s2: Option<Schema>, oneSide: bool, bf: BooleanFactor, t: Tuple)
    requires bf.rhs.ColumnRhs? <==> !oneSide
    ensures var r := MakeSelector(oneSide, FactorIndex(s1, s2, true, bf), FactorIndex(s1, s2, false, bf), bf.cop,
                                  RhsTag(bf.rhs), bf);
            r.Ok? && Eval(r.value, t) == FactorOn(s1, s2, t)(bf)
  {
    var r := MakeSelector(oneSide, FactorIndex(s1, s2, true, bf), FactorIndex(s1, s2, false, bf), bf.cop, RhsTag(bf.rhs), bf);
    assert r.Ok?;
    assert Eval(r.value, t) == FactorOn(s1, s2, t)(bf);
  }

  /** A row built from its own lists: or-cons is the row's clause and
      and-cons its conjunction, over the first len factors only. */
  lemma RowMeaning(s1: Schema, s2: Option<Schema>, oneSide: bool, cap: nat, len: nat, bfs: seq<BooleanFactor>,
                   lhs: seq<nat>, rhs: seq<nat>, cops: seq<CompOp>, tags: seq<RHSTypeTag>, t: Tuple)
    requires len <= cap && len <= |bfs|
    requires IndexRow(s1, s2, true, cap, len, bfs, lhs) && IndexRow(s1, s2, false, cap, len, bfs, rhs)
    requires CopRow(cap, len, bfs, cops) && TagRow(cap, len, bfs, tags)
    requires forall j :: 0 <= j < len ==> (bfs[j].rhs.ColumnRhs? <==> !oneSide)
    ensures MakeSelectorOrCons(oneSide, lhs, rhs, cops, tags, len, bfs).Ok?
    ensures MakeSelectorAndCons(oneSide, lhs, rhs, cops, tags, len, bfs).Ok?
    ensures Eval(MakeSelectorOrCons(oneSide, lhs, rhs, cops, tags, len, bfs).value, t)
            == Normalise.AnyHolds(FactorOn(s1, s2, t), bfs[..len])
    ensures Eval(MakeSelectorAndCons(oneSide, lhs, rhs, cops, tags, len, bfs).value, t)
            == Normalise.AllHold(FactorOn(s1, s2, t), bfs[..len])
  {
    LeavesMeaning(s1, s2, oneSide, cap, len, bfs, lhs, rhs, cops, tags, t);
    var ss := Collect(Leaves(oneSide, lhs, rhs, cops, tags, bfs, len)).value;
    OrOfLeaves(ss, bfs[..len], FactorOn(s1, s2, t), t);
    AndOfLeaves(ss, bfs[..len], FactorOn(s1, s2, t), t);
  }

  /** Selectors that evaluate a row's factors one for one: their
      or_construct is the row's clause. */
  lemma OrOfLeaves(ss: seq<Selector>, row: seq<BooleanFactor>, p: BooleanFactor -> bool, t: Tuple)
    requires |ss| == |row| && forall j :: 0 <= j < |ss| ==> Eval(ss[j], t) == p(row[j])
    ensures Eval(OrConstruct(ss), t) == Normalise.AnyHolds(p, row)
  {
  }

  /** Selectors that evaluate a row's factors one for one: their
      and_construct is the row's conjunction. */
  lemma AndOfLeaves(ss: seq<Selector>, row: seq<BooleanFactor>, p: BooleanFactor -> bool, t: Tuple)
    requires |ss| == |row| && forall j :: 0 <= j < |ss| ==> Eval(ss[j], t) == p(row[j])
    ensures Eval(AndConstruct(ss), t) == Normalise.AllHold(p, row)
  {
  }

  /** The leaves of a row built from its own lists all build, and each
      evaluates its factor. */
  lemma LeavesMeaning(s1: Schema, s2: Option<Schema>, oneSide: bool, cap: nat, len: nat, bfs: seq<BooleanFactor>,
                      lhs: seq<nat>, rhs: seq<nat>, cops: seq<CompOp>, tags: seq<RHSTypeTag>, t: Tuple)
    requires len <= cap && len <= |bfs|
    requires IndexRow(s1, s2, true, cap, len, bfs, lhs) && IndexRow(s1, s2, false, cap, len, bfs, rhs)
    requires CopRow(cap, len, bfs, cops) && TagRow(cap, len, bfs, tags)
    requires forall j :: 0 <= j < len ==> (bfs[j].rhs.ColumnRhs? <==> !oneSide)
    ensures var c := Collect(Leaves(oneSide, lhs, rhs, cops, tags, bfs, len));
            c.Ok? && |c.value| == len && forall j :: 0 <= j < len ==> Eval(c.value[j], t) == FactorOn(s1, s2, t)(bfs[j])
  {
    forall j | 0 <= j < len
      ensures MakeSelector(oneSide, lhs[j], rhs[j], cops[j], tags[j], bfs[j]).Ok?
      ensures Eval(MakeSelector(oneSide, lhs[j], rhs[j], cops[j], tags[j], bfs[j]).value, t) == FactorOn(s1, s2, t)(bfs[j])
    {
      LeafMeaning(s1, s2, oneSide, bfs[j], t);
    }
  }

  /** A matrix row's selector, from the lists the builders made. */
  lemma MatrixRowMeaning(s1: Schema, s2: Option<Schema>, oneSide: bool, cap: nat, lhs: seq<seq<nat>>, rhs: seq<seq<nat>>,
                         cops: seq<seq<CompOp>>, tags: seq<seq<RHSTypeTag>>, lens: seq<nat>, m: seq<seq<BooleanFactor>>,
                         cnfRows: bool, t: Tuple)
    requires BuiltFrom(s1, s2, oneSide, cap, lhs, rhs, cops, tags, lens, m)
    ensures Shaped(lhs, rhs, cops, tags, lens, m)
    ensures forall i :: 0 <= i < |m| ==>
              RowSelector(cnfRows, oneSide, lhs[i], rhs[i], cops[i], tags[i], lens[i], m[i]).Ok? &&
              Eval(RowSelector(cnfRows, oneSide, lhs[i], rhs[i], cops[i], tags[i], lens[i], m[i]).value, t)
              == (if cnfRows then Normalise.AnyHolds(FactorOn(s1, s2, t), Truncated(lens, m)[i])
                  else Normalise.AllHold(FactorOn(s1, s2, t), Truncated(lens, m)[i]))
  {
    forall i | 0 <= i < |m|
      ensures RowSelector(cnfRows, oneSide, lhs[i], rhs[i], cops[i], tags[i], lens[i], m[i]).Ok?
      ensures Eval(RowSelector(cnfRows, oneSide, lhs[i], rhs[i], cops[i], tags[i], lens[i], m[i]).value, t)
              == (if cnfRows then Normalise.AnyHolds(FactorOn(s1, s2, t), Truncated(lens, m)[i])
                  else Normalise.AllHold(FactorOn(s1, s2, t), Truncated(lens, m)[i]))
    {
      RowMeaning(s1, s2, oneSide, cap, lens[i], m[i], lhs[i], rhs[i], cops[i], tags[i], t);
    }
  }

  /** make_cnf_selector, fed the builders' lists, cannot fail and computes
      the CNF of the matrix rows with their padding dropped: padding is
      never read. */
  lemma CnfSelectorMeaning(s1: Schema, s2: Option<Schema>, oneSide: bool, cap: nat, lhs: seq<seq<nat>>, rhs: seq<seq<nat>>,
                           cops: seq<seq<CompOp>>, tags: seq<seq<RHSTypeTag>>, lens: seq<nat>, m: seq<seq<BooleanFactor>>,
                           t: Tuple)
    requires BuiltFrom(s1, s2, oneSide, cap, lhs, rhs, cops, tags, lens, m)
    ensures Shaped(lhs, rhs, cops, tags, lens, m)
    ensures MakeCnfSelector(oneSide, lhs, rhs, cops, tags, lens, m).Ok?
    ensures Eval(MakeCnfSelector(oneSide, lhs, rhs, cops, tags, lens, m).value, t)
            == Normalise.CnfHolds(FactorOn(s1, s2, t), Truncated(lens, m))
  {
    MatrixRowMeaning(s1, s2, oneSide, cap, lhs, rhs, cops, tags, lens, m, true, t);
    var rows := Collect(RowSelectors(true, oneSide, lhs, rhs, cops, tags, lens, m)).value;
    assert forall i :: 0 <= i < |m| ==>
      Eval(rows[i], t) == Normalise.AnyHolds(FactorOn(s1, s2, t), Truncated(lens, m)[i]);
  }

  /** make_dnf_selector, fed the builders' lists, cannot fail and computes
      the DNF of the matrix rows with their padding dropped. */
  lemma DnfSelectorMeaning(s1: Schema, s2: Option<Schema>, oneSide: bool, cap: nat, lhs: seq<seq<nat>>, rhs: seq<seq<nat>>,
                           cops: seq<seq<CompOp>>, tags: seq<seq<RHSTypeTag>>, lens: seq<nat>, m: seq<seq<BooleanFactor>>,
                           t: Tuple)
    requires BuiltFrom(s1, s2, oneSide, cap, lhs, rhs, cops, tags, lens, m)
    ensures Shaped(lhs, rhs, cops, tags, lens, m)
    ensures MakeDnfSelector(oneSide, lhs, rhs, cops, tags, lens, m).Ok?
    ensures Eval(MakeDnfSelector(oneSide, lhs, rhs, cops, tags, lens, m).value, t)
            == Normalise.DnfHolds(FactorOn(s1, s2, t), Truncated(lens, m))
  {
    MatrixRowMeaning(s1, s2, oneSide, cap, lhs, rhs, cops, tags, lens, m, false, t);
    var rows := Collect(RowSelectors(false, oneSide, lhs, rhs, cops, tags, lens, m)).value;
    assert forall i :: 0 <= i < |m| ==>
      Eval(rows[i], t) == Normalise.AllHold(FactorOn(s1, s2, t), Truncated(lens, m)[i]);
  }

  // ---------------------------------------------------------------------
  // Inner dimensions and alignment

  /** make_inner_dim(v): len copies of v (the uniform CNF clause width). */
  method MakeInnerDim(len: nat, v: nat) returns (arr: seq<nat>)
    ensures |arr| == len && forall i :: 0 <= i < len ==> arr[i] == v
  {
    var a := new nat[len](_ => 0);
    var i := 0;
    while i < len
      invariant 0 <= i <= len
      invariant forall k :: 0 <= k < i ==> a[k] == v
    {
      a[i] := v;
      i := i + 1;
    }
    arr := a[..];
  }

  /** make_inner_dim(where): the size of every conjunction, which are also
      the odometer limits of the CNF expansion. */
  method MakeInnerDimOf(where: OrTerms) returns (arr: seq<nat>)
    ensures arr == Normalise.Sizes(where)
  {
    var a := new nat[|where|](_ => 0);
    var i := 0;
    while i < |where|
      invariant 0 <= i <= |where|
      invariant forall k :: 0 <= k < i ==> a[k] == |where[k]|
    {
      a[i] := |where[i]|;
      i := i + 1;
    }
    arr := a[..];
  }

  /** The width align_dnf gives the matrix: the largest length, 0 for none. */
  function MaxLen(lens: seq<nat>): (r: nat)
    ensures forall i :: 0 <= i < |lens| ==> lens[i] <= r
    ensures |lens| == 0 ==> r == 0
    ensures |lens| > 0 ==> exists i :: 0 <= i < |lens| && lens[i] == r
  {
    if |lens| == 0 then 0
    else
      var m := MaxLen(lens[1..]);
      assert forall i :: 1 <= i < |lens| ==> lens[i] == lens[1..][i - 1];
      if lens[0] >= m then lens[0] else m
  }

  /** The rows of a 2-d array. */
  function Rows<T>(a: array2<T>): (r: seq<seq<T>>)
    reads a
    ensures |r| == a.Length0 && forall i :: 0 <= i < a.Length0 ==> |r[i]| == a.Length1
    ensures forall i, j :: 0 <= i < a.Length0 && 0 <= j < a.Length1 ==> r[i][j] == a[i, j]
  {
    seq(a.Length0, i reads a requires 0 <= i < a.Length0 => seq(a.Length1, j reads a requires 0 <= j < a.Length1 => a[i, j]))
  }

  /** align_dnf: a matrix as wide as the longest conjunction; row i holds
      conjunction i's first lens[i] factors, then default factors. */
  method AlignDnf(lens: seq<nat>, where: OrTerms) returns (aligned: seq<seq<BooleanFactor>>)
    requires |lens| <= |where| && forall i :: 0 <= i < |lens| ==> lens[i] <= |where[i]|
    ensures Matrix(MaxLen(lens), lens, aligned)
    ensures forall i, j :: 0 <= i < |lens| && 0 <= j < lens[i] ==> aligned[i][j] == where[i][j]
    ensures forall i, j :: 0 <= i < |lens| && lens[i] <= j < MaxLen(lens) ==> aligned[i][j] == DefaultFactor
  {
    var cap := MaxLen(lens);
    var a := new BooleanFactor[|lens|, cap]((_, _) => DefaultFactor);
    var i := 0;
    while i < |lens|
      invariant 0 <= i <= |lens|
      invariant forall r, c :: 0 <= r < i && 0 <= c < lens[r] ==> a[r, c] == where[r][c]
      invariant forall r, c :: 0 <= r < |lens| && 0 <= c < cap && (r >= i || c >= lens[r]) ==> a[r, c] == DefaultFactor
    {
      var j := 0;
      while j < lens[i]
        invariant 0 <= j <= lens[i]
        invariant forall r, c :: 0 <= r < i && 0 <= c < lens[r] ==> a[r, c] == where[r][c]
        invariant forall c :: 0 <= c < j ==> a[i, c] == where[i][c]
        invariant forall r, c :: 0 <= r < |lens| && 0 <= c < cap && (r > i || (r == i && c >= j) || (r < i && c >= lens[r]))
                    ==> a[r, c] == DefaultFactor
      {
        a[i, j] := where[i][j];
        j := j + 1;
      }
      i := i + 1;
    }
    aligned := Rows(a);
  }

  /** The aligned matrix, with its padding dropped, is the condition again. */
  lemma AlignedTruncates(lens: seq<nat>, where: OrTerms, aligned: seq<seq<BooleanFactor>>)
    requires lens == Normalise.Sizes(where)
    requires Matrix(MaxLen(lens), lens, aligned)
    requires forall i, j :: 0 <= i < |lens| && 0 <= j < lens[i] ==> aligned[i][j] == where[i][j]
    ensures Truncated(lens, aligned) == where
  {
    var tr := Truncated(lens, aligned);
    forall i | 0 <= i < |where| ensures tr[i] == where[i] {
      assert |tr[i]| == |where[i]|;
    }
  }

  // ---------------------------------------------------------------------
  // sift and split_sifted

  /** Every factor of the clause has the given lhs table tag (std::all_of,
      so an empty clause has every tag). */
  predicate AllTag(clause: seq<BooleanFactor>, tag: string)
  {
    |clause| == 0 || (clause[0].lhs.table == tag && AllTag(clause[1..], tag))
  }

  /** AllTag is the tag test applied to every factor. */
  lemma {:induction false} AllTagMeaning(clause: seq<BooleanFactor>, tag: string)
    ensures AllTag(clause, tag) <==> forall j :: 0 <= j < |clause| ==> clause[j].lhs.table == tag
  {
    if |clause| > 0 {
      AllTagMeaning(clause[1..], tag);
      assert forall j :: 1 <= j < |clause| ==> clause[j] == clause[1..][j - 1];
    }
  }

  /** sift: on its own copy of the CNF, swap the all-"0" clauses to the
      front, then the all-"1" clauses after them; return both delimiters
      and the permuted clauses. */
  method Sift(conditions: seq<seq<BooleanFactor>>) returns (t0End: nat, t1End: nat, sifted: seq<seq<BooleanFactor>>)
    ensures |sifted| == |conditions| && multiset(sifted) == multiset(conditions)
    ensures t0End <= t1End <= |sifted|
    ensures forall i :: 0 <= i < t0End ==> AllTag(sifted[i], "0")
    ensures forall i :: t0End <= i < t1End ==> AllTag(sifted[i], "1") && !AllTag(sifted[i], "0")
    ensures forall i :: t1End <= i < |sifted| ==> !AllTag(sifted[i], "0") && !AllTag(sifted[i], "1")
  {
    var a := new seq<BooleanFactor>[|conditions|](i requires 0 <= i < |conditions| => conditions[i]);
    assert a[..] == conditions;
    t0End := SiftPass(a, 0, "0");
    ghost var mid := a[..];
    t1End := SiftPass(a, t0End, "1");
    forall k | t0End <= k < a.Length ensures !AllTag(a[k], "0") {
      assert a[k] in mid[t0End..];
    }
    sifted := a[..];
  }

  /** One pass of sift from position start: every clause in [start, M)
      whose lhs tags all equal tag is swapped to the sentinel, which starts
      at start and returns as the delimiter. */
  method SiftPass(a: array<seq<BooleanFactor>>, start: nat, tag: string) returns (sentinel: nat)
    requires start <= a.Length
    modifies a
    ensures start <= sentinel <= a.Length
    ensures multiset(a[..]) == multiset(old(a[..]))
    ensures a[..start] == old(a[..start])
    ensures forall k :: start <= k < a.Length ==> a[k] in old(a[start..])
    ensures forall k :: start <= k < sentinel ==> AllTag(a[k], tag)
    ensures forall k :: sentinel <= k < a.Length ==> !AllTag(a[k], tag)
  {
    sentinel := start;
    var i := start;
    while i < a.Length
      invariant start <= sentinel <= i <= a.Length
      invariant multiset(a[start..]) == multiset(old(a[start..]))
      invariant a[..start] == old(a[..start])
      invariant forall k :: start <= k < sentinel ==> AllTag(a[k], tag)
      invariant forall k :: sentinel <= k < i ==> !AllTag(a[k], tag)
    {
      if AllTag(a[i], tag) {
        Swap(a, start, sentinel, i);
        sentinel := sentinel + 1;
      }
      i := i + 1;
    }
    assert a[..] == a[..start] + a[start..];
    assert old(a[..]) == old(a[..start]) + old(a[start..]);
    forall k | start <= k < a.Length ensures a[k] in old(a[start..]) {
      assert a[k] == a[start..][k - start];
      assert a[k] in multiset(a[start..]);
    }
  }

  /** std::swap of two clauses at or after start: the clauses from start
      on keep their multiset and those before start are untouched. */
  method Swap(a: array<seq<BooleanFactor>>, start: nat, i: nat, j: nat)
    requires start <= i <= j < a.Length
    modifies a
    ensures a[i] == old(a[j]) && a[j] == old(a[i])
    ensures forall k :: 0 <= k < a.Length && k != i && k != j ==> a[k] == old(a[k])
    ensures multiset(a[start..]) == multiset(old(a[start..]))
    ensures a[..start] == old(a[..start])
  {
    ghost var before := a[start..];
    a[i], a[j] := a[j], a[i];
    SwapKeepsMultiset(before, i - start, j - start, a[start..]);
  }

  /** Swapping two positions keeps the multiset of elements. */
  lemma SwapKeepsMultiset<T>(s: seq<T>, i: nat, j: nat, r: seq<T>)
    requires i <= j < |s| && |r| == |s|
    requires r[i] == s[j] && r[j] == s[i] && forall k :: 0 <= k < |s| && k != i && k != j ==> r[k] == s[k]
    ensures multiset(r) == multiset(s)
  {
    if i < j {
      assert r == s[i := s[j]][j := s[i]];
    } else {
      assert r == s;
    }
  }

  /** split_sifted: the three sub-matrices [0, t0End), [t0End, t1End) and
      [t1End, M), copied clause by clause. */
  method SplitSifted(t0End: nat, t1End: nat, conditions: seq<seq<BooleanFactor>>)
    returns (t0: seq<seq<BooleanFactor>>, t1: seq<seq<BooleanFactor>>, mixed: seq<seq<BooleanFactor>>)
    requires t0End <= t1End <= |conditions|
    ensures |t0| == t0End && |t1| == t1End - t0End && |mixed| == |conditions| - t1End
    ensures t0 + t1 + mixed == conditions
  {
    t0 := [];
    var i := 0;
    while i < t0End
      invariant 0 <= i <= t0End && t0 == conditions[..i]
    {
      t0 := t0 + [conditions[i]];
      i := i + 1;
    }
    t1 := [];
    i := 0;
    while i < t1End - t0End
      invariant 0 <= i <= t1End - t0End && t1 == conditions[t0End..t0End + i]
    {
      t1 := t1 + [conditions[t0End + i]];
      i := i + 1;
    }
    mixed := [];
    i := 0;
    while i < |conditions| - t1End
      invariant 0 <= i <= |conditions| - t1End && mixed == conditions[t1End..t1End + i]
    {
      mixed := mixed + [conditions[t1End + i]];
      i := i + 1;
    }
    assert conditions == conditions[..t0End] + conditions[t0End..t1End] + conditions[t1End..];
  }

  /** Whether a CNF holds does not depend on the order of its clauses, so
      sifting keeps its meaning. */
  lemma CnfPermutation(p: BooleanFactor -> bool, a: seq<seq<BooleanFactor>>, b: seq<seq<BooleanFactor>>)
    requires multiset(a) == multiset(b)
    ensures Normalise.CnfHolds(p, a) == Normalise.CnfHolds(p, b)
  {
    forall k | 0 <= k < |b| && Normalise.CnfHolds(p, a) ensures Normalise.AnyHolds(p, b[k]) {
      assert b[k] in multiset(a);
    }
    forall k | 0 <= k < |a| && Normalise.CnfHolds(p, b) ensures Normalise.AnyHolds(p, a[k]) {
      assert a[k] in multiset(b);
    }
  }

  /** A CNF split into consecutive parts holds exactly when every part does. */
  lemma CnfSplit(p: BooleanFactor -> bool, a: seq<seq<BooleanFactor>>, b: seq<seq<BooleanFactor>>, c: seq<seq<BooleanFactor>>)
    ensures Normalise.CnfHolds(p, a + b + c) ==
            (Normalise.CnfHolds(p, a) && Normalise.CnfHolds(p, b) && Normalise.CnfHolds(p, c))
  {
    var abc := a + b + c;
    assert forall k :: 0 <= k < |a| ==> abc[k] == a[k];
    assert forall k :: 0 <= k < |b| ==> abc[|a| + k] == b[k];
    assert forall k :: 0 <= k < |c| ==> abc[|a| + |b| + k] == c[k];
  }
}
