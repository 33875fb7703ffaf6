/** Projection and aggregation steps (include/operator/projector.h): the
    select list's positions and aggregate operators, the projector that
    reads them from a tuple, the seed of every reduced column and the step
    each aggregate applies to it. */
module Projector {
  import opened Wrappers
  import opened Common
  import opened Schema
  import Selector

  /** cnt_agg_mark: size_t(-1), the position that projects to the
      constant 1 so that summing it counts rows. */
  const CntAggMark: nat := 0xFFFF_FFFF_FFFF_FFFF

  /** The largest uint64, the range of a COUNT column. */
  const MaxU64: int := 0xFFFF_FFFF_FFFF_FFFF

  /** get_index<S1, S2> of a select-list entry: the position of the column
      it names in the tuple the projector reads. */
  function EntryIndex(s1: Schema, s2: Option<Schema>, cn: ColumnName): nat
  {
    Selector.ColumnIndex(s1, s2, BasicColumnName(cn.table, cn.column))
  }

  /** make_indices_and_agg_ops: every entry keeps its aggregate; a COUNT
      entry (COUNT(*) or COUNT(col)) gets the mark, every other entry the
      position of its column. */
  method MakeIndicesAndAggOps(s1: Schema, s2: Option<Schema>, cns: seq<ColumnName>)
    returns (indices: seq<nat>, aggOps: seq<AggOp>)
    ensures |indices| == |cns| && |aggOps| == |cns|
    ensures forall i :: 0 <= i < |cns| ==> aggOps[i] == cns[i].agg
    ensures forall i :: 0 <= i < |cns| && cns[i].agg == COUNT ==> indices[i] == CntAggMark
    ensures forall i :: 0 <= i < |cns| && cns[i].agg != COUNT ==> indices[i] == EntryIndex(s1, s2, cns[i])
  {
    var n := |cns|;
    var ia := new nat[n](_ => 0);
    var aa := new AggOp[n](_ => NONE);
    var i := 0;
    while i < n
      invariant 0 <= i <= n
      invariant forall k :: 0 <= k < i ==> aa[k] == cns[k].agg
      invariant forall k :: 0 <= k < i && cns[k].agg == COUNT ==> ia[k] == CntAggMark
      invariant forall k :: 0 <= k < i && cns[k].agg != COUNT ==> ia[k] == EntryIndex(s1, s2, cns[k])
    {
      aa[i] := cns[i].agg;
      if cns[i].agg == COUNT {
        ia[i] := CntAggMark;
      } else {
        ia[i] := EntryIndex(s1, s2, cns[i]);
      }
      i := i + 1;
    }
    indices, aggOps := ia[..], aa[..];
  }

  /** std::all_of(agg == NONE), scanning from the front. */
  predicate AllNone(aggs: seq<AggOp>)
  {
    |aggs| == 0 || (aggs[0] == NONE && AllNone(aggs[1..]))
  }

  /** need_reduction: some select-list entry carries an aggregate. */
  function NeedReduction(aggs: seq<AggOp>): (r: bool)
    ensures r <==> exists i :: 0 <= i < |aggs| && aggs[i] != NONE
  {
    if |aggs| == 0 then false
    else aggs[0] != NONE || (assert forall i :: 0 <= i < |aggs| - 1 ==> aggs[1..][i] == aggs[i + 1];
                             NeedReduction(aggs[1..]))
  }

  /** need_reduction is the negation of the all_of scan. */
  lemma {:induction false} NeedReductionIsNotAllNone(aggs: seq<AggOp>)
    ensures NeedReduction(aggs) == !AllNone(aggs)
  {
    if |aggs| > 0 {
      NeedReductionIsNotAllNone(aggs[1..]);
    }
  }

  /** One output of the projector: the constant 1 for the COUNT mark,
      otherwise the value at that position (a position outside the tuple,
      which std::get refuses at compile time, reads as 0). */
  function ProjectOne(idx: nat, t: Tuple): Value
  {
    if idx == CntAggMark then Int(1)
    else if idx < |t| then t[idx]
    else Int(0)
  }

  /** make_projector: one output per index, in index order. */
  function Project(indices: seq<nat>, t: Tuple): (p: Tuple)
    ensures |p| == |indices|
    ensures forall i :: 0 <= i < |indices| && indices[i] == CntAggMark ==> p[i] == Int(1)
    ensures forall i :: 0 <= i < |indices| && indices[i] != CntAggMark && indices[i] < |t| ==> p[i] == t[indices[i]]
  {
    seq(|indices|, i requires 0 <= i < |indices| => ProjectOne(indices[i], t))
  }

  /** The projector over the select list: a COUNT entry yields 1, and any
      other entry whose column resolves in S1 yields that field of the
      record. */
  lemma ProjectEntries(s1: Schema, cns: seq<ColumnName>, indices: seq<nat>, rec: map<string, Value>)
    requires |indices| == |cns| && IsRecord(s1, rec)
    requires forall i :: 0 <= i < |cns| && cns[i].agg == COUNT ==> indices[i] == CntAggMark
    requires forall i :: 0 <= i < |cns| && cns[i].agg != COUNT ==> indices[i] == EntryIndex(s1, None, cns[i])
    requires |s1.fields| < CntAggMark
    ensures forall i :: 0 <= i < |cns| && cns[i].agg == COUNT ==> Project(indices, SchemaToTuple(s1, rec))[i] == Int(1)
    ensures forall i :: 0 <= i < |cns| && cns[i].agg != COUNT && cns[i].column in MemberList(s1) ==>
              Project(indices, SchemaToTuple(s1, rec))[i] == rec[cns[i].column]
  {
    var t := SchemaToTuple(s1, rec);
    forall i | 0 <= i < |cns| && cns[i].agg != COUNT && cns[i].column in MemberList(s1)
      ensures Project(indices, t)[i] == rec[cns[i].column]
    {
      TupleAtIndex(s1, rec, cns[i].column);
    }
  }

  // ---------------------------------------------------------------------
  // Reduction seeds

  /** VT{}: the value-initialised element of the field's type. */
  function DefaultValue(ty: FieldType): Value
  {
    if ty.IntType? then Int(0) else Str("")
  }

  /** make_reduction_base<VT, agg>: COUNT starts at 0, NONE and SUM at the
      default value, MAX at the type's least value and MIN at its greatest;
      MAX or MIN of a text column throws, and AVG has no reduction. */
  function ReductionBase(agg: AggOp, ty: FieldType): (r: Result<Value>)
    ensures r.Ok? <==> agg == COUNT || agg == NONE || agg == SUM || ((agg == MAX || agg == MIN) && ty.IntType?)
    ensures r.Err? ==> r.error == UnsupportedAggregate
    ensures agg == COUNT ==> r == Ok(Int(0))
    ensures (agg == NONE || agg == SUM) && ty.IntType? ==> r == Ok(Int(0))
    ensures (agg == NONE || agg == SUM) && ty.TextType? ==> r == Ok(Str(""))
    ensures agg == MAX && r.Ok? ==> r.value == Int(ty.lo) && forall v :: FitsType(v, ty) ==> !Less(v, r.value)
    ensures agg == MIN && r.Ok? ==> r.value == Int(ty.hi) && forall v :: FitsType(v, ty) ==> !Less(r.value, v)
  {
    match agg
    case COUNT => Ok(Int(0))
    case NONE => Ok(DefaultValue(ty))
    case SUM => Ok(DefaultValue(ty))
    case MAX => if ty.IntType? then Ok(Int(ty.lo)) else Err(UnsupportedAggregate)
    case MIN => if ty.IntType? then Ok(Int(ty.hi)) else Err(UnsupportedAggregate)
    case AVG => Err(UnsupportedAggregate)
  }

  /** The type of each projected column: uint64 for a COUNT entry, the
      field's type otherwise (the tuple lists S1's fields, then S2's). */
  function ProjectedTypes(fields: seq<Field>, indices: seq<nat>): (tys: seq<FieldType>)
    requires forall i :: 0 <= i < |indices| ==> indices[i] == CntAggMark || indices[i] < |fields|
    ensures |tys| == |indices|
  {
    seq(|indices|, i requires 0 <= i < |indices| =>
      if indices[i] == CntAggMark then IntType(0, MaxU64) else fields[indices[i]].ty)
  }

  /** make_tuple_reduction_base: the seed of every column, or the first
      column's failure. */
  function TupleReductionBase(aggs: seq<AggOp>, tys: seq<FieldType>): (r: Result<Tuple>)
    requires |aggs| == |tys|
    ensures r.Ok? <==> forall i :: 0 <= i < |aggs| ==> ReductionBase(aggs[i], tys[i]).Ok?
    ensures r.Ok? ==> |r.value| == |aggs| && forall i :: 0 <= i < |aggs| ==> r.value[i] == ReductionBase(aggs[i], tys[i]).value
  {
    var rs := seq(|aggs|, i requires 0 <= i < |aggs| => ReductionBase(aggs[i], tys[i]));
    assert forall i :: 0 <= i < |aggs| ==> rs[i] == ReductionBase(aggs[i], tys[i]);
    Selector.Collect(rs)
  }

  // ---------------------------------------------------------------------
  // Reduction steps

  /** `+=` on the reduced column: numbers add, strings concatenate. Values
      of different kinds never meet (that does not type-check). */
  function Add(a: Value, b: Value): Value
  {
    match (a, b)
    case (Int(x), Int(y)) => Int(x + y)
    case (Real(x), Real(y)) => Real(x + y)
    case (Str(x), Str(y)) => Str(x + y)
    case _ => a
  }

  /** to_operator<idx, agg> on one column: NONE takes the new value only
      while its latch is still set, COUNT and SUM add, MAX keeps the
      greater and MIN the smaller value. AVG has no step operator. */
  function StepValue(agg: AggOp, latched: bool, b: Value, v: Value): (r: Value)
    requires agg != AVG
    ensures agg == NONE ==> r == (if latched then v else b)
    ensures (agg == COUNT || agg == SUM) && b.Int? && v.Int? ==> r == Int(b.i + v.i)
    ensures agg == MAX ==> (r == b || r == v) && !Less(r, b) && !Less(r, v)
    ensures agg == MIN ==> (r == b || r == v) && !Less(b, r) && !Less(v, r)
    ensures agg == MAX && Less(b, v) ==> r == v
    ensures agg == MIN && Less(v, b) ==> r == v
    ensures (agg == MAX || agg == MIN) && !Less(b, v) && !Less(v, b) ==> r == b
  {
    LessIrreflexive(b);
    LessIrreflexive(v);
    LessAsymmetric(b, v);
    match agg
    case NONE => if latched then v else b
    case COUNT => Add(b, v)
    case SUM => Add(b, v)
    case MAX => if Less(b, v) then v else b
    case MIN => if Less(v, b) then v else b
  }

  /** The state a tuple operator folds: the running tuple, and the latch
      of each column's NONE step. */
  datatype ReduceState = ReduceState(base: Tuple, first: seq<bool>)

  predicate NoAvg(aggs: seq<AggOp>)
  {
    forall i :: 0 <= i < |aggs| ==> aggs[i] != AVG
  }

  /** The state of a freshly made tuple operator on a seeded tuple: every
      latch set. */
  function Fresh(base: Tuple): (st: ReduceState)
    ensures st.base == base && |st.first| == |base|
    ensures forall i :: 0 <= i < |base| ==> st.first[i]
  {
    ReduceState(base, seq(|base|, _ => true))
  }

  /** to_tuple_operator applied once: every column steps on its own
      position; afterwards the NONE latches are clear. */
  function StepTuple(aggs: seq<AggOp>, st: ReduceState, t: Tuple): (r: ReduceState)
    requires NoAvg(aggs) && |st.base| == |aggs| && |st.first| == |aggs| && |t| == |aggs|
    ensures |r.base| == |aggs| && |r.first| == |aggs|
  {
    ReduceState(seq(|aggs|, i requires 0 <= i < |aggs| => StepValue(aggs[i], st.first[i], st.base[i], t[i])),
                seq(|aggs|, i requires 0 <= i < |aggs| => st.first[i] && aggs[i] != NONE))
  }

  predicate Rows(n: nat, rows: seq<Tuple>)
  {
    forall k :: 0 <= k < |rows| ==> |rows[k]| == n
  }

  /** The operator applied to every row, first row first. */
  function FoldState(aggs: seq<AggOp>, st: ReduceState, rows: seq<Tuple>): (r: ReduceState)
    requires NoAvg(aggs) && |st.base| == |aggs| && |st.first| == |aggs| && Rows(|aggs|, rows)
    ensures |r.base| == |aggs| && |r.first| == |aggs|
  {
    if |rows| == 0 then st
    else StepTuple(aggs, FoldState(aggs, st, rows[..|rows| - 1]), rows[|rows| - 1])
  }

  /** The tuple operator: the column steps of to_tuple_operator, holding
      the mutable latch of each NONE step. */
  class TupleOperator {
    const aggs: seq<AggOp>
    var first: seq<bool>

    predicate Valid()
      reads this
    {
      NoAvg(aggs) && |first| == |aggs|
    }

    constructor (aggs: seq<AggOp>)
      requires NoAvg(aggs)
      ensures this.aggs == aggs && Valid()
      ensures forall i :: 0 <= i < |aggs| ==> first[i]
    {
      this.aggs := aggs;
      first := seq(|aggs|, _ => true);
    }

    /** reduce_op(base, new): the next state of base and of the latches. */
    method Apply(base: Tuple, t: Tuple) returns (nb: Tuple)
      requires Valid() && |base| == |aggs| && |t| == |aggs|
      modifies this
      ensures Valid()
      ensures ReduceState(nb, first) == StepTuple(aggs, ReduceState(base, old(first)), t)
    {
      var st := StepTuple(aggs, ReduceState(base, first), t);
      nb, first := st.base, st.first;
    }
  }

  // ---------------------------------------------------------------------
  // What a fold computes, column by column

  /** The sum of the integers in column c. */
  function SumColumn(rows: seq<Tuple>, c: nat): int
    requires forall k :: 0 <= k < |rows| ==> c < |rows[k]| && rows[k][c].Int?
  {
    if |rows| == 0 then 0 else SumColumn(rows[..|rows| - 1], c) + rows[|rows| - 1][c].i
  }

  /** Folding a SUM column from 0 gives the sum of the column. */
  lemma {:induction false} FoldSum(aggs: seq<AggOp>, st: ReduceState, rows: seq<Tuple>, c: nat)
    requires NoAvg(aggs) && |st.base| == |aggs| && |st.first| == |aggs| && Rows(|aggs|, rows)
    requires c < |aggs| && (aggs[c] == SUM || aggs[c] == COUNT) && st.base[c] == Int(0)
    requires forall k :: 0 <= k < |rows| ==> rows[k][c].Int?
    ensures FoldState(aggs, st, rows).base[c] == Int(SumColumn(rows, c))
  {
    if |rows| > 0 {
      var init := rows[..|rows| - 1];
      FoldSum(aggs, st, init, c);
    }
  }

  /** Folding a COUNT column from 0, when every row projects it to 1,
      gives the number of rows. */
  lemma {:induction false} FoldCount(aggs: seq<AggOp>, st: ReduceState, rows: seq<Tuple>, c: nat)
    requires NoAvg(aggs) && |st.base| == |aggs| && |st.first| == |aggs| && Rows(|aggs|, rows)
    requires c < |aggs| && aggs[c] == COUNT && st.base[c] == Int(0)
    requires forall k :: 0 <= k < |rows| ==> rows[k][c] == Int(1)
    ensures FoldState(aggs, st, rows).base[c] == Int(|rows|)
  {
    if |rows| > 0 {
      FoldCount(aggs, st, rows[..|rows| - 1], c);
    }
  }

  /** A NONE column takes the first row's value when its latch starts set,
      and keeps its seed when there are no rows or the latch starts clear. */
  lemma {:induction false} FoldNone(aggs: seq<AggOp>, st: ReduceState, rows: seq<Tuple>, c: nat)
    requires NoAvg(aggs) && |st.base| == |aggs| && |st.first| == |aggs| && Rows(|aggs|, rows)
    requires c < |aggs| && aggs[c] == NONE
    ensures |rows| == 0 || !st.first[c] ==> FoldState(aggs, st, rows).base[c] == st.base[c]
    ensures |rows| > 0 && st.first[c] ==> FoldState(aggs, st, rows).base[c] == rows[0][c]
    ensures |rows| > 0 ==> !FoldState(aggs, st, rows).first[c]
  {
    if |rows| > 1 {
      var init := rows[..|rows| - 1];
      FoldNone(aggs, st, init, c);
      assert init[0] == rows[0];
    }
  }

  /** A MAX column ends at least as large as its seed and every value, and
      equal to one of them. */
  lemma {:induction false} FoldMax(aggs: seq<AggOp>, st: ReduceState, rows: seq<Tuple>, c: nat)
    requires NoAvg(aggs) && |st.base| == |aggs| && |st.first| == |aggs| && Rows(|aggs|, rows)
    requires c < |aggs| && aggs[c] == MAX
    ensures !Less(FoldState(aggs, st, rows).base[c], st.base[c])
    ensures forall k :: 0 <= k < |rows| ==> !Less(FoldState(aggs, st, rows).base[c], rows[k][c])
    ensures FoldState(aggs, st, rows).base[c] == st.base[c] ||
            exists k :: 0 <= k < |rows| && FoldState(aggs, st, rows).base[c] == rows[k][c]
  {
    if |rows| == 0 {
      LessIrreflexive(st.base[c]);
    } else {
      var init := rows[..|rows| - 1];
      FoldMax(aggs, st, init, c);
      var m := FoldState(aggs, st, init).base[c];
      var r := FoldState(aggs, st, rows).base[c];
      assert r == StepValue(MAX, false, m, rows[|rows| - 1][c]);
      NotLessChain(r, m, st.base[c]);
      forall k | 0 <= k < |rows|
        ensures !Less(r, rows[k][c])
      {
        if k < |rows| - 1 {
          assert rows[k] == init[k];
          NotLessChain(r, m, rows[k][c]);
        }
      }
      if r != st.base[c] && r != rows[|rows| - 1][c] {
        assert r == m;
        var k :| 0 <= k < |init| && m == init[k][c];
        assert rows[k] == init[k];
      }
    }
  }

  /** A MIN column ends at most as large as its seed and every value, and
      equal to one of them. */
  lemma {:induction false} FoldMin(aggs: seq<AggOp>, st: ReduceState, rows: seq<Tuple>, c: nat)
    requires NoAvg(aggs) && |st.base| == |aggs| && |st.first| == |aggs| && Rows(|aggs|, rows)
    requires c < |aggs| && aggs[c] == MIN
    ensures !Less(st.base[c], FoldState(aggs, st, rows).base[c])
    ensures forall k :: 0 <= k < |rows| ==> !Less(rows[k][c], FoldState(aggs, st, rows).base[c])
    ensures FoldState(aggs, st, rows).base[c] == st.base[c] ||
            exists k :: 0 <= k < |rows| && FoldState(aggs, st, rows).base[c] == rows[k][c]
  {
    if |rows| == 0 {
      LessIrreflexive(st.base[c]);
    } else {
      var init := rows[..|rows| - 1];
      FoldMin(aggs, st, init, c);
      var m := FoldState(aggs, st, init).base[c];
      var r := FoldState(aggs, st, rows).base[c];
      assert r == StepValue(MIN, false, m, rows[|rows| - 1][c]);
      NotLessChain(st.base[c], m, r);
      forall k | 0 <= k < |rows|
        ensures !Less(rows[k][c], r)
      {
        if k < |rows| - 1 {
          assert rows[k] == init[k];
          NotLessChain(rows[k][c], m, r);
        }
      }
      if r != st.base[c] && r != rows[|rows| - 1][c] {
        assert r == m;
        var k :| 0 <= k < |init| && m == init[k][c];
        assert rows[k] == init[k];
      }
    }
  }

  /** Less is asymmetric. */
  lemma LessAsymmetric(a: Value, b: Value)
    ensures !(Less(a, b) && Less(b, a))
  {
    if Less(a, b) && Less(b, a) {
      LessTransitive(a, b, a);
      LessIrreflexive(a);
    }
  }

  /** "Not below" is transitive, since Less is a strict order that is
      total on values of one kind and puts numbers before strings. */
  lemma NotLessChain(a: Value, b: Value, c: Value)
    requires !Less(a, b) && !Less(b, c)
    ensures !Less(a, c)
  {
    if a.Str? && b.Str? && c.Str? && StrLess(a.s, c.s) {
      StrTrichotomy(a.s, b.s);
      StrTrichotomy(b.s, c.s);
      if StrLess(b.s, a.s) {
        StrLessTransitive(b.s, a.s, c.s);
      }
      if a.s == b.s {
        assert StrLess(b.s, c.s);
      }
    }
  }
}
