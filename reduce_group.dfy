/** The reduction drivers of include/planner.h: ReduceGroup<false>, the
    global reduction that yields one tuple, and ReduceGroup<true>, the
    grouped reduction that keeps one running tuple per group key in a hash
    dictionary and yields the dictionary's values. */
module ReduceGroup {
  import opened Wrappers
  import opened Common
  import opened Projector
  import EqJoin
  import Schema
  import Selector

  // ---------------------------------------------------------------------
  // Group keys

  /** group_by_indices: the position of every group-by column in the tuple
      the reduction reads. */
  method GroupByIndices(s1: Schema.Schema, s2: Option<Schema.Schema>, keys: seq<ColumnName>) returns (gb: seq<nat>)
    ensures |gb| == |keys|
    ensures forall i :: 0 <= i < |keys| ==> gb[i] == EntryIndex(s1, s2, keys[i])
  {
    var a := new nat[|keys|](_ => 0);
    var i := 0;
    while i < |keys|
      invariant 0 <= i <= |keys|
      invariant forall k :: 0 <= k < i ==> a[k] == EntryIndex(s1, s2, keys[k])
    {
      a[i] := EntryIndex(s1, s2, keys[i]);
      i := i + 1;
    }
    gb := a[..];
  }

  /** A resolved group-by column names a field of its table. */
  predicate KeysResolved(s1: Schema.Schema, s2: Schema.Schema, keys: seq<ColumnName>)
  {
    forall i :: 0 <= i < |keys| ==>
      if keys[i].table == "0" then keys[i].column in Schema.MemberList(s1) else keys[i].column in Schema.MemberList(s2)
  }

  /** The group key of a joined row lists the values of its group-by
      fields, so two rows fall into one group exactly when they agree on
      every group-by column. */
  lemma GroupKeyReads(s1: Schema.Schema, s2: Schema.Schema, keys: seq<ColumnName>, gb: seq<nat>,
                      r1: map<string, Value>, r2: map<string, Value>)
    requires |gb| == |keys| && forall i :: 0 <= i < |keys| ==> gb[i] == EntryIndex(s1, Some(s2), keys[i])
    requires Schema.IsRecord(s1, r1) && Schema.IsRecord(s2, r2) && KeysResolved(s1, s2, keys)
    requires |s1.fields| + |s2.fields| < CntAggMark
    ensures forall i :: 0 <= i < |keys| ==>
              Project(gb, Schema.SchemaToTuple(s1, r1) + Schema.SchemaToTuple(s2, r2))[i] ==
              (if keys[i].table == "0" then r1[keys[i].column] else r2[keys[i].column])
  {
    var t := Schema.SchemaToTuple(s1, r1) + Schema.SchemaToTuple(s2, r2);
    forall i | 0 <= i < |keys|
      ensures Project(gb, t)[i] == (if keys[i].table == "0" then r1[keys[i].column] else r2[keys[i].column])
    {
      var c := BasicColumnName(keys[i].table, keys[i].column);
      Selector.ColumnIndexReads(s1, s2, r1, r2, c);
    }
  }

  /** The one-table case: the group key lists the record's group-by
      fields. */
  lemma GroupKeyReadsOne(s1: Schema.Schema, keys: seq<ColumnName>, gb: seq<nat>, r1: map<string, Value>)
    requires |gb| == |keys| && forall i :: 0 <= i < |keys| ==> gb[i] == EntryIndex(s1, None, keys[i])
    requires Schema.IsRecord(s1, r1) && forall i :: 0 <= i < |keys| ==> keys[i].column in Schema.MemberList(s1)
    requires |s1.fields| < CntAggMark
    ensures forall i :: 0 <= i < |keys| ==>
              keys[i].column in r1 && Project(gb, Schema.SchemaToTuple(s1, r1))[i] == r1[keys[i].column]
  {
    forall i | 0 <= i < |keys|
      ensures keys[i].column in r1 && Project(gb, Schema.SchemaToTuple(s1, r1))[i] == r1[keys[i].column]
    {
      Schema.TupleAtIndex(s1, r1, keys[i].column);
    }
  }

  /** The projector applied to every input tuple, in order. */
  function Projections(indices: seq<nat>, input: seq<Tuple>): (ps: seq<Tuple>)
    ensures |ps| == |input| && Rows(|indices|, ps)
    ensures forall i :: 0 <= i < |input| ==> ps[i] == Project(indices, input[i])
  {
    seq(|input|, i requires 0 <= i < |input| => Project(indices, input[i]))
  }

  lemma ProjectionsSnoc(indices: seq<nat>, input: seq<Tuple>, t: Tuple)
    ensures Projections(indices, input + [t]) == Projections(indices, input) + [Project(indices, t)]
  {
  }

  /** What the reduction drivers need of the plan: one step operator and
      one seed per projected column, and no AVG (it has no step operator). */
  predicate Plan(aggs: seq<AggOp>, indices: seq<nat>, base: Tuple)
  {
    |indices| == |aggs| && |base| == |aggs| && NoAvg(aggs)
  }

  // ---------------------------------------------------------------------
  // Global reduction

  /** ReduceGroup<false>::reduce: one tuple operator, the seeded tuple,
      every input row folded in order, and exactly one tuple yielded (the
      seed itself for an empty input). */
  method GlobalReduce(aggs: seq<AggOp>, indices: seq<nat>, base: Tuple, input: seq<Tuple>) returns (out: seq<Tuple>)
    requires Plan(aggs, indices, base)
    ensures out == [FoldState(aggs, Fresh(base), Projections(indices, input)).base]
  {
    var reduceOp := new TupleOperator(aggs);
    var b := base;
    ghost var ps := Projections(indices, input);
    var i := 0;
    while i < |input|
      invariant 0 <= i <= |input|
      invariant reduceOp.aggs == aggs && reduceOp.Valid() && |b| == |aggs|
      invariant ReduceState(b, reduceOp.first) == FoldState(aggs, Fresh(base), ps[..i])
    {
      assert ps[..i + 1][..i] == ps[..i];
      b := reduceOp.Apply(b, Project(indices, input[i]));
      i := i + 1;
    }
    assert ps[..|input|] == ps;
    out := [b];
  }

  /** The global reduction's COUNT column is the number of input rows. */
  lemma GlobalCount(aggs: seq<AggOp>, indices: seq<nat>, base: Tuple, input: seq<Tuple>, c: nat)
    requires Plan(aggs, indices, base)
    requires c < |aggs| && aggs[c] == COUNT && indices[c] == CntAggMark && base[c] == Int(0)
    ensures FoldState(aggs, Fresh(base), Projections(indices, input)).base[c] == Int(|input|)
  {
    var ps := Projections(indices, input);
    assert forall k :: 0 <= k < |ps| ==> ps[k][c] == Int(1);
    FoldCount(aggs, Fresh(base), ps, c);
  }

  // ---------------------------------------------------------------------
  // Grouped reduction as written: one tuple operator for all groups

  /** The dictionary and the one operator's latches after the rows. */
  datatype SharedState = SharedState(dict: map<Tuple, Tuple>, first: seq<bool>)

  /** ReduceGroup<true>::reduce over rows, first row first: a key is
      seeded when first seen, and every row is folded into its key's tuple
      by the single reduce_op, whose NONE latches are shared by all groups. */
  function SharedFold(aggs: seq<AggOp>, indices: seq<nat>, gbIndices: seq<nat>, base: Tuple, input: seq<Tuple>)
    : (st: SharedState)
    requires Plan(aggs, indices, base)
    ensures |st.first| == |aggs| && forall k :: k in st.dict ==> |st.dict[k]| == |aggs|
  {
    if |input| == 0 then SharedState(map[], Fresh(base).first)
    else
      var prev := SharedFold(aggs, indices, gbIndices, base, input[..|input| - 1]);
      var t := input[|input| - 1];
      var k := Project(gbIndices, t);
      var b := if k in prev.dict then prev.dict[k] else base;
      var next := StepTuple(aggs, ReduceState(b, prev.first), Project(indices, t));
      SharedState(prev.dict[k := next.base], next.first)
  }

  /** The yield loop: every entry of the dictionary once, in the
      dictionary's (unspecified) iteration order. */
  method YieldValues(d: map<Tuple, Tuple>) returns (keys: seq<Tuple>, out: seq<Tuple>)
    ensures |keys| == |out| == |d|
    ensures forall i, j :: 0 <= i < j < |keys| ==> keys[i] != keys[j]
    ensures forall i :: 0 <= i < |keys| ==> keys[i] in d && out[i] == d[keys[i]]
    ensures forall k :: k in d ==> k in keys
  {
    keys, out := [], [];
    var todo := d.Keys;
    while todo != {}
      invariant todo <= d.Keys
      invariant |keys| == |out| == |d.Keys| - |todo|
      invariant forall i, j :: 0 <= i < j < |keys| ==> keys[i] != keys[j]
      invariant forall i :: 0 <= i < |keys| ==> keys[i] in d && keys[i] !in todo && out[i] == d[keys[i]]
      invariant forall k :: k in d ==> k in keys || k in todo
      decreases |todo|
    {
      var k :| k in todo;
      keys, out := keys + [k], out + [d[k]];
      todo := todo - {k};
    }
  }

  /** ReduceGroup<true>::reduce as written: the dictionary of running
      tuples, filled under one shared reduce_op, then every value yielded. */
  method GroupedReduceAsWritten(aggs: seq<AggOp>, indices: seq<nat>, gbIndices: seq<nat>, base: Tuple, input: seq<Tuple>)
    returns (keys: seq<Tuple>, out: seq<Tuple>)
    requires Plan(aggs, indices, base)
    ensures |keys| == |out| && forall i, j :: 0 <= i < j < |keys| ==> keys[i] != keys[j]
    ensures forall i :: 0 <= i < |keys| ==>
              keys[i] in SharedFold(aggs, indices, gbIndices, base, input).dict &&
              out[i] == SharedFold(aggs, indices, gbIndices, base, input).dict[keys[i]]
    ensures forall k :: k in SharedFold(aggs, indices, gbIndices, base, input).dict ==> k in keys
  {
    var gbDict: map<Tuple, Tuple> := map[];
    var reduceOp := new TupleOperator(aggs);
    var i := 0;
    while i < |input|
      invariant 0 <= i <= |input|
      invariant reduceOp.aggs == aggs && reduceOp.Valid()
      invariant SharedState(gbDict, reduceOp.first) == SharedFold(aggs, indices, gbIndices, base, input[..i])
    {
      assert input[..i + 1][..i] == input[..i];
      var gbTuple := Project(gbIndices, input[i]);
      if gbTuple !in gbDict {
        gbDict := gbDict[gbTuple := base];
      }
      var nb := reduceOp.Apply(gbDict[gbTuple], Project(indices, input[i]));
      gbDict := gbDict[gbTuple := nb];
      i := i + 1;
    }
    assert input[..|input|] == input;
    ghost var st := SharedFold(aggs, indices, gbIndices, base, input);
    assert gbDict == st.dict;
    keys, out := YieldValues(gbDict);
  }

  // ---------------------------------------------------------------------
  // Grouped reduction with one latch per group

  /** Every group's running state after the rows: a key is seeded with a
      fresh operator state when first seen, and each row steps its own
      key's state. */
  function GroupFolds(aggs: seq<AggOp>, indices: seq<nat>, gbIndices: seq<nat>, base: Tuple, input: seq<Tuple>)
    : (d: map<Tuple, ReduceState>)
    requires Plan(aggs, indices, base)
    ensures forall k :: k in d ==> |d[k].base| == |aggs| && |d[k].first| == |aggs|
  {
    if |input| == 0 then map[]
    else
      var prev := GroupFolds(aggs, indices, gbIndices, base, input[..|input| - 1]);
      var t := input[|input| - 1];
      var k := Project(gbIndices, t);
      var st := if k in prev then prev[k] else Fresh(base);
      prev[k := StepTuple(aggs, st, Project(indices, t))]
  }

  /** The keys of the states and the running tuples. */
  function Bases(d: map<Tuple, ReduceState>): (r: map<Tuple, Tuple>)
    ensures r.Keys == d.Keys && forall k :: k in d ==> r[k] == d[k].base
  {
    map k | k in d :: d[k].base
  }

  /** The grouped reduction with the evidently intended per-group NONE
      latch: every group's entry carries its own operator state. It yields
      one tuple per distinct group key, and nothing for an empty input. */
  method GroupedReduce(aggs: seq<AggOp>, indices: seq<nat>, gbIndices: seq<nat>, base: Tuple, input: seq<Tuple>)
    returns (keys: seq<Tuple>, out: seq<Tuple>)
    requires Plan(aggs, indices, base)
    ensures |keys| == |out| && forall i, j :: 0 <= i < j < |keys| ==> keys[i] != keys[j]
    ensures forall i :: 0 <= i < |keys| ==>
              keys[i] in GroupFolds(aggs, indices, gbIndices, base, input) &&
              out[i] == GroupFolds(aggs, indices, gbIndices, base, input)[keys[i]].base
    ensures forall k :: k in GroupFolds(aggs, indices, gbIndices, base, input) ==> k in keys
    ensures |input| == 0 ==> out == []
  {
    var gbDict: map<Tuple, ReduceState> := map[];
    var i := 0;
    while i < |input|
      invariant 0 <= i <= |input|
      invariant gbDict == GroupFolds(aggs, indices, gbIndices, base, input[..i])
    {
      assert input[..i + 1][..i] == input[..i];
      var gbTuple := Project(gbIndices, input[i]);
      if gbTuple !in gbDict {
        gbDict := gbDict[gbTuple := Fresh(base)];
      }
      gbDict := gbDict[gbTuple := StepTuple(aggs, gbDict[gbTuple], Project(indices, input[i]))];
      i := i + 1;
    }
    assert input[..|input|] == input;
    keys, out := YieldValues(Bases(gbDict));
    assert |input| == 0 ==> |Bases(gbDict)| == 0;
  }

  /** There is a group for a key exactly when some row has that key, and
      its tuple is the global reduction of that group's rows. */
  lemma {:induction false} GroupIsGlobalReduce(aggs: seq<AggOp>, indices: seq<nat>, gbIndices: seq<nat>, base: Tuple,
                                               input: seq<Tuple>, k: Tuple)
    requires Plan(aggs, indices, base)
    ensures k in GroupFolds(aggs, indices, gbIndices, base, input) <==>
            exists i :: 0 <= i < |input| && Project(gbIndices, input[i]) == k
    ensures k in GroupFolds(aggs, indices, gbIndices, base, input) ==>
              GroupFolds(aggs, indices, gbIndices, base, input)[k]
              == FoldState(aggs, Fresh(base), Projections(indices, EqJoin.KeyFilter(gbIndices, input, k)))
  {
    GroupKeys(aggs, indices, gbIndices, base, input, k);
    if |input| > 0 {
      var init, t := input[..|input| - 1], input[|input| - 1];
      GroupIsGlobalReduce(aggs, indices, gbIndices, base, init, k);
      var f := EqJoin.KeyFilter(gbIndices, init, k);
      if Project(gbIndices, t) == k {
        assert EqJoin.KeyFilter(gbIndices, input, k) == f + [t];
        ProjectionsSnoc(indices, f, t);
        var ps := Projections(indices, f + [t]);
        assert ps[..|ps| - 1] == Projections(indices, f);
        if k !in GroupFolds(aggs, indices, gbIndices, base, init) {
          EmptyGroup(aggs, indices, gbIndices, base, init, k);
        }
      } else {
        assert EqJoin.KeyFilter(gbIndices, input, k) == f;
      }
    }
  }

  /** There is a group for a key exactly when some row has that key. */
  lemma {:induction false} GroupKeys(aggs: seq<AggOp>, indices: seq<nat>, gbIndices: seq<nat>, base: Tuple,
                                     input: seq<Tuple>, k: Tuple)
    requires Plan(aggs, indices, base)
    ensures k in GroupFolds(aggs, indices, gbIndices, base, input) <==>
            exists i :: 0 <= i < |input| && Project(gbIndices, input[i]) == k
  {
    if |input| > 0 {
      var init := input[..|input| - 1];
      GroupKeys(aggs, indices, gbIndices, base, init, k);
      if exists i :: 0 <= i < |init| && Project(gbIndices, init[i]) == k {
        var i :| 0 <= i < |init| && Project(gbIndices, init[i]) == k;
        assert input[i] == init[i];
      }
      if exists i :: 0 <= i < |input| && Project(gbIndices, input[i]) == k {
        var i :| 0 <= i < |input| && Project(gbIndices, input[i]) == k;
        if i < |init| {
          assert input[i] == init[i];
        }
      }
    }
  }

  /** A key no row has has no rows in its group. */
  lemma {:induction false} EmptyGroup(aggs: seq<AggOp>, indices: seq<nat>, gbIndices: seq<nat>, base: Tuple,
                                      input: seq<Tuple>, k: Tuple)
    requires forall i :: 0 <= i < |input| ==> Project(gbIndices, input[i]) != k
    ensures EqJoin.KeyFilter(gbIndices, input, k) == []
  {
    if |input| > 0 {
      var init := input[..|input| - 1];
      assert forall i :: 0 <= i < |init| ==> init[i] == input[i];
      EmptyGroup(aggs, indices, gbIndices, base, init, k);
    }
  }

  /** Each group's COUNT column is the number of rows with its key. */
  lemma GroupCount(aggs: seq<AggOp>, indices: seq<nat>, gbIndices: seq<nat>, base: Tuple, input: seq<Tuple>, k: Tuple, c: nat)
    requires Plan(aggs, indices, base)
    requires c < |aggs| && aggs[c] == COUNT && indices[c] == CntAggMark && base[c] == Int(0)
    requires k in GroupFolds(aggs, indices, gbIndices, base, input)
    ensures GroupFolds(aggs, indices, gbIndices, base, input)[k].base[c] == Int(|EqJoin.KeyFilter(gbIndices, input, k)|)
  {
    GroupIsGlobalReduce(aggs, indices, gbIndices, base, input, k);
    FoldCount(aggs, Fresh(base), Projections(indices, EqJoin.KeyFilter(gbIndices, input, k)), c);
  }

  /** Each group's NONE column holds the value of that group's first row
      (for a group-by key selected plainly, the key itself). */
  lemma GroupFirstValue(aggs: seq<AggOp>, indices: seq<nat>, gbIndices: seq<nat>, base: Tuple, input: seq<Tuple>,
                        k: Tuple, c: nat)
    requires Plan(aggs, indices, base)
    requires c < |aggs| && aggs[c] == NONE
    requires k in GroupFolds(aggs, indices, gbIndices, base, input)
    ensures |EqJoin.KeyFilter(gbIndices, input, k)| > 0
    ensures GroupFolds(aggs, indices, gbIndices, base, input)[k].base[c]
            == Project(indices, EqJoin.KeyFilter(gbIndices, input, k)[0])[c]
  {
    GroupIsGlobalReduce(aggs, indices, gbIndices, base, input, k);
    var i :| 0 <= i < |input| && Project(gbIndices, input[i]) == k;
    NonEmptyGroup(gbIndices, input, k, i);
    FoldNone(aggs, Fresh(base), Projections(indices, EqJoin.KeyFilter(gbIndices, input, k)), c);
  }

  lemma {:induction false} NonEmptyGroup(gbIndices: seq<nat>, input: seq<Tuple>, k: Tuple, i: nat)
    requires i < |input| && Project(gbIndices, input[i]) == k
    ensures |EqJoin.KeyFilter(gbIndices, input, k)| > 0
  {
    if i < |input| - 1 {
      NonEmptyGroup(gbIndices, input[..|input| - 1], k, i);
    }
  }

  // ---------------------------------------------------------------------
  // The shared latch loses the second group's plain column

  /** A group exists as written exactly when some row has its key. */
  lemma {:induction false} SharedKeys(aggs: seq<AggOp>, indices: seq<nat>, gbIndices: seq<nat>, base: Tuple,
                                      input: seq<Tuple>, k: Tuple)
    requires Plan(aggs, indices, base)
    ensures k in SharedFold(aggs, indices, gbIndices, base, input).dict <==>
            exists i :: 0 <= i < |input| && Project(gbIndices, input[i]) == k
  {
    if |input| > 0 {
      var init := input[..|input| - 1];
      SharedKeys(aggs, indices, gbIndices, base, init, k);
      if exists i :: 0 <= i < |init| && Project(gbIndices, init[i]) == k {
        var i :| 0 <= i < |init| && Project(gbIndices, init[i]) == k;
        assert input[i] == init[i];
      }
      if exists i :: 0 <= i < |input| && Project(gbIndices, input[i]) == k {
        var i :| 0 <= i < |input| && Project(gbIndices, input[i]) == k;
        if i < |init| {
          assert input[i] == init[i];
        }
      }
    }
  }

  /** As written, the first row spends every NONE latch of the one shared
      operator. */
  lemma SharedLatchSpent(aggs: seq<AggOp>, indices: seq<nat>, gbIndices: seq<nat>, base: Tuple, input: seq<Tuple>, c: nat)
    requires Plan(aggs, indices, base) && c < |aggs| && aggs[c] == NONE && |input| > 0
    ensures !SharedFold(aggs, indices, gbIndices, base, input).first[c]
  {
  }

  /** As written, every group other than the first row's keeps the seed in
      each NONE column, whatever its rows hold. */
  lemma {:induction false} SharedLatchKeepsSeed(aggs: seq<AggOp>, indices: seq<nat>, gbIndices: seq<nat>, base: Tuple,
                                                input: seq<Tuple>, k: Tuple, c: nat)
    requires Plan(aggs, indices, base) && c < |aggs| && aggs[c] == NONE
    requires |input| > 0 && k != Project(gbIndices, input[0])
    requires k in SharedFold(aggs, indices, gbIndices, base, input).dict
    ensures SharedFold(aggs, indices, gbIndices, base, input).dict[k][c] == base[c]
  {
    var init, t := input[..|input| - 1], input[|input| - 1];
    var prev := SharedFold(aggs, indices, gbIndices, base, init);
    if |init| > 0 {
      assert init[0] == input[0];
      SharedLatchSpent(aggs, indices, gbIndices, base, init, c);
      if k in prev.dict {
        SharedLatchKeepsSeed(aggs, indices, gbIndices, base, init, k, c);
      }
    }
  }

  /** SELECT a, COUNT(*) ... GROUP BY a over the rows a = 1 and a = 2: as
      written, the group a = 2 yields 0, not 2, for the column a. */
  lemma SharedLatchLosesKey()
    ensures [Int(2)] in SharedFold([NONE, COUNT], [0, CntAggMark], [0], [Int(0), Int(0)], [[Int(1)], [Int(2)]]).dict
    ensures SharedFold([NONE, COUNT], [0, CntAggMark], [0], [Int(0), Int(0)], [[Int(1)], [Int(2)]]).dict[[Int(2)]][0]
            == Int(0)
  {
    var aggs, indices, gb, base := [NONE, COUNT], [0, CntAggMark], [0], [Int(0), Int(0)];
    var input := [[Int(1)], [Int(2)]];
    ExampleProjections();
    SharedKeys(aggs, indices, gb, base, input, [Int(2)]);
    assert Project(gb, input[1]) == [Int(2)];
    assert [Int(2)] != [Int(1)] by {
      assert [Int(2)][0] != [Int(1)][0];
    }
    SharedLatchKeepsSeed(aggs, indices, gb, base, input, [Int(2)], 0);
  }

  /** The same plan with a latch per group: the group a = 2 yields 2 for
      the column a. */
  lemma PerGroupLatchKeepsKey()
    ensures [Int(2)] in GroupFolds([NONE, COUNT], [0, CntAggMark], [0], [Int(0), Int(0)], [[Int(1)], [Int(2)]])
    ensures GroupFolds([NONE, COUNT], [0, CntAggMark], [0], [Int(0), Int(0)], [[Int(1)], [Int(2)]])[[Int(2)]].base[0]
            == Int(2)
  {
    var aggs, indices, gb, base := [NONE, COUNT], [0, CntAggMark], [0], [Int(0), Int(0)];
    var r1, r2 := [Int(1)], [Int(2)];
    var input := [r1, r2];
    ExampleProjections();
    GroupIsGlobalReduce(aggs, indices, gb, base, input, [Int(2)]);
    assert Project(gb, input[1]) == [Int(2)];
    assert [Int(1)] != [Int(2)] by {
      assert [Int(1)][0] != [Int(2)][0];
    }
    assert input[..1] == [r1] && [r1][..0] == [];
    assert EqJoin.KeyFilter(gb, [r1], [Int(2)]) == [];
    assert EqJoin.KeyFilter(gb, input, [Int(2)]) == [r2];
    GroupFirstValue(aggs, indices, gb, base, input, [Int(2)], 0);
  }

  /** The projections of the example rows. */
  lemma ExampleProjections()
    ensures Project([0], [Int(1)]) == [Int(1)] && Project([0], [Int(2)]) == [Int(2)]
    ensures Project([0, CntAggMark], [Int(1)]) == [Int(1), Int(1)]
    ensures Project([0, CntAggMark], [Int(2)]) == [Int(2), Int(1)]
  {
  }
}
