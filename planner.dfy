/** The query planner (include/planner.h, lines 268-373): the WHERE
    condition's pushed-down CNF selectors and its DNF fallback, the
    join-condition checks, the hash-join and nested-loop join plans, and
    the projection plan. QueryPlanner's constants are computed from the
    resolved query res, the output of resolve_table_name(dealias_query(q))
    that the Preproc module models. */
module QueryPlanner {
  import opened Wrappers
  import opened Common
  import opened Schema
  import Normalise
  import Logical
  import Selector
  import JoinIndices
  import Projector
  import EqJoin
  import ReduceGroup

  // ---------------------------------------------------------------------
  // The join-condition flags

  /** A factor whose two sides name the same table; the rhs table is that
      of the column alternative (a literal names no table). */
  predicate SameTable(bf: BooleanFactor)
  {
    bf.rhs.ColumnRhs? && bf.lhs.table == bf.rhs.col.table
  }

  /** is_join_well_formed: scan every factor of every AND-clause and stop
      at the first one whose two sides name the same table. */
  method IsJoinWellFormed(jc: OrTerms) returns (ok: bool)
    ensures ok <==> forall i, j :: 0 <= i < |jc| && 0 <= j < |jc[i]| ==> !SameTable(jc[i][j])
  {
    var i := 0;
    while i < |jc|
      invariant 0 <= i <= |jc|
      invariant forall a, b :: 0 <= a < i && 0 <= b < |jc[a]| ==> !SameTable(jc[a][b])
    {
      var j := 0;
      while j < |jc[i]|
        invariant 0 <= j <= |jc[i]|
        invariant forall b :: 0 <= b < j ==> !SameTable(jc[i][b])
      {
        var bf := jc[i][j];
        if bf.rhs.ColumnRhs? && bf.lhs.table == bf.rhs.col.table {
          return false;
        }
        j := j + 1;
      }
      i := i + 1;
    }
    return true;
  }

  /** admits_eq_join: exactly one AND-clause, and a scan of it finds an EQ
      factor. */
  method AdmitsEqJoin(jc: OrTerms) returns (r: bool)
    ensures r <==> |jc| == 1 && exists j :: 0 <= j < |jc[0]| && jc[0][j].cop == EQ
  {
    if |jc| != 1 {
      return false;
    }
    var j := 0;
    while j < |jc[0]|
      invariant 0 <= j <= |jc[0]|
      invariant forall b :: 0 <= b < j ==> jc[0][b].cop != EQ
    {
      if jc[0][j].cop == EQ {
        return true;
      }
      j := j + 1;
    }
    return false;
  }

  /** A clause has an EQ factor exactly when sift_join_condition's EQ list
      is non-empty, so the hash join's own check (planner.h:76) holds
      whenever admits_eq_join does. */
  lemma {:induction false} HasEqFactor(bfs: AndTerms)
    ensures (exists j :: 0 <= j < |bfs| && bfs[j].cop == EQ) <==> |JoinIndices.EqFactors(bfs)| > 0
  {
    if |bfs| > 0 {
      var init := bfs[..|bfs| - 1];
      HasEqFactor(init);
      if exists j :: 0 <= j < |init| && init[j].cop == EQ {
        var j :| 0 <= j < |init| && init[j].cop == EQ;
        assert bfs[j] == init[j];
      }
      if exists j :: 0 <= j < |bfs| && bfs[j].cop == EQ {
        var j :| 0 <= j < |bfs| && bfs[j].cop == EQ;
        if j < |init| {
          assert bfs[j] == init[j];
        }
      }
    }
  }

  // ---------------------------------------------------------------------
  // Facts about every factor of a matrix, and where they survive

  /** Every factor of the matrix satisfies q. */
  predicate Everywhere(q: BooleanFactor -> bool, m: seq<seq<BooleanFactor>>)
  {
    forall i, j :: 0 <= i < |m| && 0 <= j < |m[i]| ==> q(m[i][j])
  }

  /** Every row of the matrix is w factors wide. */
  predicate Uniform(w: nat, m: seq<seq<BooleanFactor>>)
  {
    forall i :: 0 <= i < |m| ==> |m[i]| == w
  }

  /** The right side is a literal: a WHERE factor. */
  predicate Literal(bf: BooleanFactor)
  {
    !bf.rhs.ColumnRhs?
  }

  /** A factor tagged "0" names a field of S1. */
  predicate LeftResolved(s1: Schema, bf: BooleanFactor)
  {
    bf.lhs.table == "0" ==> bf.lhs.column in MemberList(s1)
  }

  /** Every CNF clause picks one factor of each conjunction, so it is as
      wide as the DNF is long and holds only the DNF's factors. */
  lemma CnfKeeps(q: BooleanFactor -> bool, where: OrTerms)
    requires Everywhere(q, where)
    ensures Everywhere(q, Normalise.CnfOf(where)) && Uniform(|where|, Normalise.CnfOf(where))
  {
    var cnf := Normalise.CnfOf(where);
    var l := Normalise.Sizes(where);
    forall k | 0 <= k < |cnf|
      ensures |cnf[k]| == |where| && forall j :: 0 <= j < |cnf[k]| ==> q(cnf[k][j])
    {
      Normalise.DecodeValid(k, l);
      var d := Normalise.Decode(k, l);
      assert cnf[k] == Normalise.Clause(where, d);
      forall j | 0 <= j < |cnf[k]| ensures q(cnf[k][j]) {
        assert cnf[k][j] == where[j][d[j]];
      }
    }
  }

  /** A permutation of the rows keeps every row-wise fact. */
  lemma PermutedKeeps(q: BooleanFactor -> bool, w: nat, a: seq<seq<BooleanFactor>>, b: seq<seq<BooleanFactor>>)
    requires multiset(a) == multiset(b) && Everywhere(q, a) && Uniform(w, a)
    ensures Everywhere(q, b) && Uniform(w, b)
  {
    forall k | 0 <= k < |b| ensures |b[k]| == w && forall j :: 0 <= j < |b[k]| ==> q(b[k][j]) {
      assert b[k] in multiset(a);
      var k' :| 0 <= k' < |a| && a[k'] == b[k];
    }
  }

  /** The parts of a split keep every row-wise fact. */
  lemma PartsKeep(q: BooleanFactor -> bool, w: nat, a: seq<seq<BooleanFactor>>, b: seq<seq<BooleanFactor>>,
                  c: seq<seq<BooleanFactor>>)
    requires Everywhere(q, a + b + c) && Uniform(w, a + b + c)
    ensures Everywhere(q, a) && Everywhere(q, b) && Everywhere(q, c)
    ensures Uniform(w, a) && Uniform(w, b) && Uniform(w, c)
  {
    var abc := a + b + c;
    assert forall k :: 0 <= k < |a| ==> abc[k] == a[k];
    assert forall k :: 0 <= k < |b| ==> abc[|a| + k] == b[k];
    assert forall k :: 0 <= k < |c| ==> abc[|a| + |b| + k] == c[k];
  }

  // ---------------------------------------------------------------------
  // Evaluating a factor on one table or on the joined tuple

  /** A factor on S1's field reads the same from the left tuple as from
      the joined one. */
  lemma LeftLocal(s1: Schema, s2: Schema, l: Tuple, r: Tuple, bf: BooleanFactor)
    requires |l| == |s1.fields| && bf.lhs.table == "0" && LeftResolved(s1, bf) && Literal(bf)
    ensures Selector.FactorOn(s1, None, l)(bf) == Selector.FactorOn(s1, Some(s2), l + r)(bf)
  {
    var g := GetIndex(s1, bf.lhs.column);
    assert Selector.ColumnIndex(s1, None, bf.lhs) == g == Selector.ColumnIndex(s1, Some(s2), bf.lhs);
    assert (l + r)[g] == l[g];
    assert Logical.RhsValue(Selector.TupleEnv(s1, None, l), bf.rhs)
        == Logical.RhsValue(Selector.TupleEnv(s1, Some(s2), l + r), bf.rhs);
  }

  /** A factor on S2's field reads the same from the right tuple as from
      the joined one. */
  lemma RightLocal(s1: Schema, s2: Schema, l: Tuple, r: Tuple, bf: BooleanFactor)
    requires |l| == |s1.fields| && bf.lhs.table != "0" && Literal(bf)
    ensures Selector.FactorOn(s2, None, r)(bf) == Selector.FactorOn(s1, Some(s2), l + r)(bf)
  {
    var g := GetIndex(s2, bf.lhs.column);
    assert Selector.ColumnIndex(s2, None, bf.lhs) == g;
    assert Selector.ColumnIndex(s1, Some(s2), bf.lhs) == |l| + g;
    if g < |r| {
      assert (l + r)[|l| + g] == r[g];
    }
    assert Logical.RhsValue(Selector.TupleEnv(s2, None, r), bf.rhs)
        == Logical.RhsValue(Selector.TupleEnv(s1, Some(s2), l + r), bf.rhs);
  }

  /** Two evaluations that agree on every factor agree on the CNF. */
  lemma CnfAgree(p: BooleanFactor -> bool, q: BooleanFactor -> bool, m: seq<seq<BooleanFactor>>)
    requires forall i, j :: 0 <= i < |m| && 0 <= j < |m[i]| ==> p(m[i][j]) == q(m[i][j])
    ensures Normalise.CnfHolds(p, m) == Normalise.CnfHolds(q, m)
  {
    forall k | 0 <= k < |m| ensures Normalise.AnyHolds(p, m[k]) == Normalise.AnyHolds(q, m[k]) {
      if Normalise.AnyHolds(p, m[k]) && |m[k]| > 0 {
        var j :| 0 <= j < |m[k]| && p(m[k][j]);
        assert q(m[k][j]);
      }
      if Normalise.AnyHolds(q, m[k]) && |m[k]| > 0 {
        var j :| 0 <= j < |m[k]| && q(m[k][j]);
        assert p(m[k][j]);
      }
    }
  }

  /** Sifting and splitting keep the meaning: the three parts together
      hold exactly when the DNF does. */
  lemma SplitMeaning(p: BooleanFactor -> bool, where: OrTerms, t0: seq<seq<BooleanFactor>>,
                     t1: seq<seq<BooleanFactor>>, mixed: seq<seq<BooleanFactor>>)
    requires multiset(t0 + t1 + mixed) == multiset(Normalise.CnfOf(where))
    ensures (Normalise.CnfHolds(p, t0) && Normalise.CnfHolds(p, t1) && Normalise.CnfHolds(p, mixed))
            == Normalise.DnfHolds(p, where)
  {
    Normalise.DnfToCnfEquivalent(p, where);
    Selector.CnfPermutation(p, Normalise.CnfOf(where), t0 + t1 + mixed);
    Selector.CnfSplit(p, t0, t1, mixed);
  }

  // ---------------------------------------------------------------------
  // Building one selector

  /** Rows as wide as their lengths lose nothing to truncation. */
  lemma UniformTruncated(width: nat, lens: seq<nat>, m: seq<seq<BooleanFactor>>)
    requires Uniform(width, m) && |lens| == |m| && forall i :: 0 <= i < |m| ==> lens[i] == width
    ensures Selector.Truncated(lens, m) == m
  {
    var tr := Selector.Truncated(lens, m);
    assert forall i :: 0 <= i < |m| ==> tr[i] == m[i][..width] == m[i];
  }

  /** The lists the 2-d builders return for a CNF of uniform width with
      literal right sides are the ones a one-sided selector is built from. */
  lemma CnfBuilt(s: Schema, s2: Option<Schema>, width: nat, lens: seq<nat>, lhs: seq<seq<nat>>,
                 rhs: seq<seq<nat>>, cops: seq<seq<CompOp>>, tags: seq<seq<Selector.RHSTypeTag>>,
                 m: seq<seq<BooleanFactor>>)
    requires Uniform(width, m) && Everywhere(Literal, m)
    requires |lens| == |m| && forall i :: 0 <= i < |m| ==> lens[i] == width
    requires |lhs| == |m| && forall i :: 0 <= i < |m| ==> Selector.IndexRow(s, s2, true, width, lens[i], m[i], lhs[i])
    requires |rhs| == |m| && forall i :: 0 <= i < |m| ==> Selector.IndexRow(s, s2, false, width, lens[i], m[i], rhs[i])
    requires |cops| == |m| && forall i :: 0 <= i < |m| ==> Selector.CopRow(width, lens[i], m[i], cops[i])
    requires |tags| == |m| && forall i :: 0 <= i < |m| ==> Selector.TagRow(width, lens[i], m[i], tags[i])
    ensures Selector.BuiltFrom(s, s2, true, width, lhs, rhs, cops, tags, lens, m)
  {
    assert Selector.Matrix(width, lens, m);
  }

  /** Such lists make a selector that computes the CNF. */
  lemma CnfListsMeaning(s: Schema, s2: Option<Schema>, width: nat, lens: seq<nat>, lhs: seq<seq<nat>>,
                        rhs: seq<seq<nat>>, cops: seq<seq<CompOp>>, tags: seq<seq<Selector.RHSTypeTag>>,
                        m: seq<seq<BooleanFactor>>)
    requires Selector.BuiltFrom(s, s2, true, width, lhs, rhs, cops, tags, lens, m)
    requires Selector.Truncated(lens, m) == m
    ensures Selector.Shaped(lhs, rhs, cops, tags, lens, m)
    ensures Selector.MakeCnfSelector(true, lhs, rhs, cops, tags, lens, m).Ok?
    ensures forall t :: Selector.Eval(Selector.MakeCnfSelector(true, lhs, rhs, cops, tags, lens, m).value, t)
                        == Normalise.CnfHolds(Selector.FactorOn(s, s2, t), m)
  {
    forall t ensures Selector.Eval(Selector.MakeCnfSelector(true, lhs, rhs, cops, tags, lens, m).value, t)
                     == Normalise.CnfHolds(Selector.FactorOn(s, s2, t), m) {
      Selector.CnfSelectorMeaning(s, s2, true, width, lhs, rhs, cops, tags, lens, m, t);
    }
    Selector.CnfSelectorMeaning(s, s2, true, width, lhs, rhs, cops, tags, lens, m, []);
  }

  /** make_cnf_selector over a CNF of uniform width with literal right
      sides, or nullopt for no clauses; the builders' lists are computed
      with make_inner_dim(width). */
  method CnfSelectorOf(s: Schema, s2: Option<Schema>, width: nat, m: seq<seq<BooleanFactor>>)
    returns (sel: Option<Selector.Selector>)
    requires Uniform(width, m) && Everywhere(Literal, m)
    ensures sel.None? <==> |m| == 0
    ensures forall t :: EqJoin.Passes(sel, t) == Normalise.CnfHolds(Selector.FactorOn(s, s2, t), m)
  {
    if |m| == 0 {
      return None;
    }
    var lens := Selector.MakeInnerDim(|m|, width);
    var lhs := Selector.MakeIndices2d(s, s2, true, width, lens, m);
    var rhs := Selector.MakeIndices2d(s, s2, false, width, lens, m);
    var cops := Selector.MakeCopList2d(width, lens, m);
    var tags := Selector.MakeRhsTypeList2d(width, lens, m);
    CnfBuilt(s, s2, width, lens, lhs, rhs, cops, tags, m);
    UniformTruncated(width, lens, m);
    CnfListsMeaning(s, s2, width, lens, lhs, rhs, cops, tags, m);
    sel := Some(Selector.MakeCnfSelector(true, lhs, rhs, cops, tags, lens, m).value);
  }

  /** The factors are one-sided exactly when the selector is built
      one-sided. */
  predicate SidesMatch(oneSide: bool, m: seq<seq<BooleanFactor>>)
  {
    forall i, j :: 0 <= i < |m| && 0 <= j < |m[i]| ==> (m[i][j].rhs.ColumnRhs? <==> !oneSide)
  }

  /** The lists align_dnf and the 2-d builders produce for a DNF. */
  predicate DnfLists(s1: Schema, s2: Option<Schema>, m: OrTerms, lens: seq<nat>, aligned: seq<seq<BooleanFactor>>,
                     lhs: seq<seq<nat>>, rhs: seq<seq<nat>>, cops: seq<seq<CompOp>>,
                     tags: seq<seq<Selector.RHSTypeTag>>)
  {
    lens == Normalise.Sizes(m) && Selector.Matrix(Selector.MaxLen(lens), lens, aligned) &&
    (forall i, j :: 0 <= i < |lens| && 0 <= j < lens[i] ==> aligned[i][j] == m[i][j]) &&
    |lhs| == |m| && |rhs| == |m| && |cops| == |m| && |tags| == |m| &&
    forall i :: 0 <= i < |m| ==>
      Selector.IndexRow(s1, s2, true, Selector.MaxLen(lens), lens[i], aligned[i], lhs[i]) &&
      Selector.IndexRow(s1, s2, false, Selector.MaxLen(lens), lens[i], aligned[i], rhs[i]) &&
      Selector.CopRow(Selector.MaxLen(lens), lens[i], aligned[i], cops[i]) &&
      Selector.TagRow(Selector.MaxLen(lens), lens[i], aligned[i], tags[i])
  }

  /** Lists for a DNF whose factors match the selector's sidedness are
      the ones a selector of that sidedness is built from. */
  lemma DnfBuilt(oneSide: bool, s1: Schema, s2: Option<Schema>, m: OrTerms, lens: seq<nat>,
                 aligned: seq<seq<BooleanFactor>>, lhs: seq<seq<nat>>, rhs: seq<seq<nat>>,
                 cops: seq<seq<CompOp>>, tags: seq<seq<Selector.RHSTypeTag>>)
    requires DnfLists(s1, s2, m, lens, aligned, lhs, rhs, cops, tags) && SidesMatch(oneSide, m)
    ensures Selector.BuiltFrom(s1, s2, oneSide, Selector.MaxLen(lens), lhs, rhs, cops, tags, lens, aligned)
    ensures Selector.Truncated(lens, aligned) == m
  {
    Selector.AlignedTruncates(lens, m, aligned);
  }

  /** Such lists make a selector that computes the DNF. */
  lemma DnfListsMeaning(oneSide: bool, s1: Schema, s2: Option<Schema>, m: OrTerms, lens: seq<nat>,
                           aligned: seq<seq<BooleanFactor>>, lhs: seq<seq<nat>>, rhs: seq<seq<nat>>,
                           cops: seq<seq<CompOp>>, tags: seq<seq<Selector.RHSTypeTag>>)
    requires Selector.BuiltFrom(s1, s2, oneSide, Selector.MaxLen(lens), lhs, rhs, cops, tags, lens, aligned)
    requires Selector.Truncated(lens, aligned) == m
    ensures Selector.Shaped(lhs, rhs, cops, tags, lens, aligned)
    ensures Selector.MakeDnfSelector(oneSide, lhs, rhs, cops, tags, lens, aligned).Ok?
    ensures forall t :: Selector.Eval(Selector.MakeDnfSelector(oneSide, lhs, rhs, cops, tags, lens, aligned).value, t)
                        == Normalise.DnfHolds(Selector.FactorOn(s1, s2, t), m)
  {
    var cap := Selector.MaxLen(lens);
    Selector.DnfSelectorMeaning(s1, s2, oneSide, cap, lhs, rhs, cops, tags, lens, aligned, []);
    forall t ensures Selector.Eval(Selector.MakeDnfSelector(oneSide, lhs, rhs, cops, tags, lens, aligned).value, t)
                     == Normalise.DnfHolds(Selector.FactorOn(s1, s2, t), m) {
      Selector.DnfSelectorMeaning(s1, s2, oneSide, cap, lhs, rhs, cops, tags, lens, aligned, t);
    }
  }

  /** Every way a row selector can fail is a bad variant access. */
  lemma RowFailure(oneSide: bool, lhs: seq<nat>, rhs: seq<nat>, cops: seq<CompOp>, tags: seq<Selector.RHSTypeTag>,
                   len: nat, bfs: seq<BooleanFactor>)
    requires len <= |lhs| && len <= |rhs| && len <= |cops| && len <= |tags| && len <= |bfs|
    ensures var r := Selector.MakeSelectorAndCons(oneSide, lhs, rhs, cops, tags, len, bfs);
            r.Err? ==> r.error == BadVariantAccess
  {
    var leaves := Selector.Leaves(oneSide, lhs, rhs, cops, tags, bfs, len);
    var c := Selector.Collect(leaves);
    if c.Err? {
      var j :| 0 <= j < |leaves| && leaves[j] == Err(c.error);
    }
  }

  /** A one-sided row that reaches a column on the right fails. */
  lemma RowFails(lhs: seq<nat>, rhs: seq<nat>, cops: seq<CompOp>, tags: seq<Selector.RHSTypeTag>, cap: nat,
                 len: nat, bfs: seq<BooleanFactor>, j: nat)
    requires len <= cap && len <= |bfs| && |lhs| == cap && |rhs| == cap && |cops| == cap
    requires Selector.TagRow(cap, len, bfs, tags)
    requires j < len && bfs[j].rhs.ColumnRhs?
    ensures Selector.MakeSelectorAndCons(true, lhs, rhs, cops, tags, len, bfs) == Err(BadVariantAccess)
  {
    var leaves := Selector.Leaves(true, lhs, rhs, cops, tags, bfs, len);
    assert tags[j] == Selector.COLNAME;
    assert leaves[j].Err?;
    RowFailure(true, lhs, rhs, cops, tags, len, bfs);
  }

  /** Lists for a DNF with a two-sided factor make no one-sided selector:
      building it is a bad variant access. */
  lemma DnfListsFail(s1: Schema, s2: Option<Schema>, m: OrTerms, lens: seq<nat>, aligned: seq<seq<BooleanFactor>>,
                     lhs: seq<seq<nat>>, rhs: seq<seq<nat>>, cops: seq<seq<CompOp>>,
                     tags: seq<seq<Selector.RHSTypeTag>>, i: nat, j: nat)
    requires DnfLists(s1, s2, m, lens, aligned, lhs, rhs, cops, tags)
    requires i < |m| && j < |m[i]| && m[i][j].rhs.ColumnRhs?
    ensures Selector.Shaped(lhs, rhs, cops, tags, lens, aligned)
    ensures Selector.MakeDnfSelector(true, lhs, rhs, cops, tags, lens, aligned) == Err(BadVariantAccess)
  {
    var cap := Selector.MaxLen(lens);
    assert Selector.Shaped(lhs, rhs, cops, tags, lens, aligned);
    var rows := Selector.RowSelectors(false, true, lhs, rhs, cops, tags, lens, aligned);
    RowFails(lhs[i], rhs[i], cops[i], tags[i], cap, lens[i], aligned[i], j);
    assert rows[i].Err?;
    var c := Selector.Collect(rows);
    var k :| 0 <= k < |rows| && rows[k] == Err(c.error);
    RowFailure(true, lhs[k], rhs[k], cops[k], tags[k], lens[k], aligned[k]);
  }

  /** make_dnf_selector over align_dnf's matrix, or nullopt for an empty
      condition. Its one_side parameter chooses literal or column leaves. */
  method DnfSelectorOf(oneSide: bool, s1: Schema, s2: Option<Schema>, m: OrTerms)
    returns (r: Result<Option<Selector.Selector>>)
    ensures SidesMatch(oneSide, m) ==>
              r.Ok? && (r.value.None? <==> |m| == 0) &&
              forall t :: EqJoin.Passes(r.value, t) == Normalise.DnfHolds(Selector.FactorOn(s1, s2, t), m)
    ensures oneSide && (exists i, j :: 0 <= i < |m| && 0 <= j < |m[i]| && m[i][j].rhs.ColumnRhs?) ==>
              r == Err(BadVariantAccess)
  {
    var lens := Selector.MakeInnerDimOf(m);
    var aligned := Selector.AlignDnf(lens, m);
    if |aligned| == 0 {
      return Ok(None);
    }
    var cap := Selector.MaxLen(lens);
    var lhs := Selector.MakeIndices2d(s1, s2, true, cap, lens, aligned);
    var rhs := Selector.MakeIndices2d(s1, s2, false, cap, lens, aligned);
    var cops := Selector.MakeCopList2d(cap, lens, aligned);
    var tags := Selector.MakeRhsTypeList2d(cap, lens, aligned);
    assert DnfLists(s1, s2, m, lens, aligned, lhs, rhs, cops, tags);
    assert Selector.Shaped(lhs, rhs, cops, tags, lens, aligned);
    var sel := Selector.MakeDnfSelector(oneSide, lhs, rhs, cops, tags, lens, aligned);
    if SidesMatch(oneSide, m) {
      DnfBuilt(oneSide, s1, s2, m, lens, aligned, lhs, rhs, cops, tags);
      DnfListsMeaning(oneSide, s1, s2, m, lens, aligned, lhs, rhs, cops, tags);
    }
    if oneSide && exists i, j :: 0 <= i < |m| && 0 <= j < |m[i]| && m[i][j].rhs.ColumnRhs? {
      var i, j :| 0 <= i < |m| && 0 <= j < |m[i]| && m[i][j].rhs.ColumnRhs?;
      DnfListsFail(s1, s2, m, lens, aligned, lhs, rhs, cops, tags, i, j);
    }
    if sel.Err? {
      return Err(sel.error);
    }
    return Ok(Some(sel.value));
  }

  // ---------------------------------------------------------------------
  // The WHERE plan

  /** Every factor tagged "0" names a field of S1. */
  predicate WhereResolved(s1: Schema, where: OrTerms)
  {
    forall i, j :: 0 <= i < |where| && 0 <= j < |where[i]| ==> LeftResolved(s1, where[i][j])
  }

  /** Every factor of the matrix has the given lhs table tag. */
  predicate Tagged(tag: string, m: seq<seq<BooleanFactor>>)
  {
    forall i, j :: 0 <= i < |m| && 0 <= j < |m[i]| ==> m[i][j].lhs.table == tag
  }

  /** The CNF pushed down to S1 holds on the left tuple, the one pushed
      down to S2 on the right tuple and the mixed one on the joined tuple
      exactly when the WHERE condition holds on the joined tuple. */
  lemma PushdownMeaning(s1: Schema, s2: Schema, where: OrTerms, t0: seq<seq<BooleanFactor>>, t1: seq<seq<BooleanFactor>>,
                        mixed: seq<seq<BooleanFactor>>, l: Tuple, r: Tuple)
    requires multiset(t0 + t1 + mixed) == multiset(Normalise.CnfOf(where))
    requires Tagged("0", t0) && Tagged("1", t1) && Everywhere(Literal, t0) && Everywhere(Literal, t1)
    requires Everywhere((bf: BooleanFactor) => LeftResolved(s1, bf), t0)
    requires |l| == |s1.fields|
    ensures (Normalise.CnfHolds(Selector.FactorOn(s1, None, l), t0) &&
             Normalise.CnfHolds(Selector.FactorOn(s2, None, r), t1) &&
             Normalise.CnfHolds(Selector.FactorOn(s1, Some(s2), l + r), mixed))
            == Normalise.DnfHolds(Selector.FactorOn(s1, Some(s2), l + r), where)
  {
    var p := Selector.FactorOn(s1, Some(s2), l + r);
    forall i, j | 0 <= i < |t0| && 0 <= j < |t0[i]|
      ensures Selector.FactorOn(s1, None, l)(t0[i][j]) == p(t0[i][j])
    {
      LeftLocal(s1, s2, l, r, t0[i][j]);
    }
    CnfAgree(Selector.FactorOn(s1, None, l), p, t0);
    forall i, j | 0 <= i < |t1| && 0 <= j < |t1[i]|
      ensures Selector.FactorOn(s2, None, r)(t1[i][j]) == p(t1[i][j])
    {
      RightLocal(s1, s2, l, r, t1[i][j]);
    }
    CnfAgree(Selector.FactorOn(s2, None, r), p, t1);
    SplitMeaning(p, where, t0, t1, mixed);
  }

  /** The clauses sift puts in front carry their tag on every factor. */
  lemma SiftedTags(t0End: nat, t1End: nat, sifted: seq<seq<BooleanFactor>>, t0: seq<seq<BooleanFactor>>,
                   t1: seq<seq<BooleanFactor>>, mixed: seq<seq<BooleanFactor>>)
    requires t0End <= t1End <= |sifted|
    requires forall i :: 0 <= i < t0End ==> Selector.AllTag(sifted[i], "0")
    requires forall i :: t0End <= i < t1End ==> Selector.AllTag(sifted[i], "1")
    requires |t0| == t0End && |t1| == t1End - t0End && t0 + t1 + mixed == sifted
    ensures Tagged("0", t0) && Tagged("1", t1)
  {
    forall i | 0 <= i < |t0| ensures forall j :: 0 <= j < |t0[i]| ==> t0[i][j].lhs.table == "0" {
      assert t0[i] == sifted[i];
      Selector.AllTagMeaning(t0[i], "0");
    }
    forall i | 0 <= i < |t1| ensures forall j :: 0 <= j < |t1[i]| ==> t1[i][j].lhs.table == "1" {
      assert t1[i] == sifted[t0End + i];
      Selector.AllTagMeaning(t1[i], "1");
    }
  }

  /** The planner's selectors for the WHERE condition. */
  datatype WherePlan = WherePlan(t0: Option<Selector.Selector>, t1: Option<Selector.Selector>,
                                 mixed: Option<Selector.Selector>, dnf: Option<Selector.Selector>, shouldDnf: bool)

  /** What the WHERE plan promises: should_dnf exactly when there is
      one table or neither table's selector exists; no S2 or mixed
      selector for one table; a DNF selector exactly when there is a
      condition, and it selects what the condition holds on; and for two
      tables whose S1 columns resolve, the three pushed-down selectors
      together select exactly what the condition holds on. */
  ghost predicate WhereSound(s1: Schema, s2: Option<Schema>, where: OrTerms, w: WherePlan)
  {
    (w.shouldDnf <==> s2.None? || (w.t0.None? && w.t1.None?)) &&
    (s2.None? ==> w.t1.None? && w.mixed.None?) &&
    (w.dnf.None? <==> |where| == 0) &&
    (forall t :: EqJoin.Passes(w.dnf, t) == Normalise.DnfHolds(Selector.FactorOn(s1, s2, t), where)) &&
    (s2.Some? && WhereResolved(s1, where) ==>
       forall l: Tuple, r: Tuple :: |l| == |s1.fields| ==>
         (EqJoin.Passes(w.t0, l) && EqJoin.Passes(w.t1, r) && EqJoin.Passes(w.mixed, l + r))
         == Normalise.DnfHolds(Selector.FactorOn(s1, s2, l + r), where))
  }

  /** The WHERE strategy: expand the condition to CNF, sift it by table
      tag and split it; build the S1-only selector, and with two tables the
      S2-only and mixed ones; build the DNF selector over the aligned
      condition; fall back to it with one table or when nothing can be
      pushed down. Every WHERE factor has a literal right side. */
  method PlanWhere(s1: Schema, s2: Option<Schema>, where: OrTerms) returns (w: WherePlan)
    requires Everywhere(Literal, where)
    ensures WhereSound(s1, s2, where, w)
  {
    var cnfClauseSize := |where|;
    var cnf := Normalise.DnfToCnf(where);
    var t0End, t1End, sifted := Selector.Sift(cnf);
    var t0, t1, mixed := Selector.SplitSifted(t0End, t1End, sifted);
    CnfKeeps(Literal, where);
    PermutedKeeps(Literal, cnfClauseSize, cnf, sifted);
    PartsKeep(Literal, cnfClauseSize, t0, t1, mixed);
    var t0Selector := CnfSelectorOf(s1, None, cnfClauseSize, t0);
    var t1Selector: Option<Selector.Selector> := None;
    var mixedSelector: Option<Selector.Selector> := None;
    if s2.Some? {
      t1Selector := CnfSelectorOf(s2.value, None, cnfClauseSize, t1);
      mixedSelector := CnfSelectorOf(s1, s2, cnfClauseSize, mixed);
    }
    assert SidesMatch(true, where);
    var dnfSelector := DnfSelectorOf(true, s1, s2, where);
    w := WherePlan(t0Selector, t1Selector, mixedSelector, dnfSelector.value,
                   s2.None? || (t0Selector.None? && t1Selector.None?));
    if s2.Some? && WhereResolved(s1, where) {
      var q := (bf: BooleanFactor) => LeftResolved(s1, bf);
      assert Everywhere(q, where);
      CnfKeeps(q, where);
      PermutedKeeps(q, cnfClauseSize, cnf, sifted);
      PartsKeep(q, cnfClauseSize, t0, t1, mixed);
      SiftedTags(t0End, t1End, sifted, t0, t1, mixed);
      forall l: Tuple, r: Tuple | |l| == |s1.fields|
        ensures (EqJoin.Passes(w.t0, l) && EqJoin.Passes(w.t1, r) && EqJoin.Passes(w.mixed, l + r))
                == Normalise.DnfHolds(Selector.FactorOn(s1, s2, l + r), where)
      {
        PushdownMeaning(s1, s2.value, where, t0, t1, mixed, l, r);
      }
    }
  }

  // ---------------------------------------------------------------------
  // The hash-join plan

  /** Both lists of sift_join_condition hold only factors of the clause. */
  lemma SiftedFrom(bfs: AndTerms)
    ensures forall x :: x in JoinIndices.EqFactors(bfs) ==> x in bfs
    ensures forall x :: x in JoinIndices.OtherFactors(bfs) ==> x in bfs
  {
    JoinIndices.SiftJoinConditionPartition(bfs);
    forall x | x in JoinIndices.EqFactors(bfs) ensures x in bfs {
      assert x in multiset(JoinIndices.EqFactors(bfs));
    }
    forall x | x in JoinIndices.OtherFactors(bfs) ensures x in bfs {
      assert x in multiset(JoinIndices.OtherFactors(bfs));
    }
  }

  /** The key lists make_join_indices returns for the EQ factors: for each
      factor, the S1 position of the side tagged "0" and the S2 position
      of the other side. */
  predicate KeyIndices(s1: Schema, s2: Schema, eqs: AndTerms, t0: seq<nat>, t1: seq<nat>)
  {
    |t0| == |eqs| && |t1| == |eqs| &&
    (forall i :: 0 <= i < |eqs| ==> eqs[i].rhs.ColumnRhs?) &&
    (forall i :: 0 <= i < |eqs| && eqs[i].lhs.table == "0" && eqs[i].rhs.ColumnRhs? ==>
       t0[i] == GetIndex(s1, eqs[i].lhs.column) && t1[i] == GetIndex(s2, eqs[i].rhs.col.column)) &&
    (forall i :: 0 <= i < |eqs| && eqs[i].lhs.table != "0" && eqs[i].rhs.ColumnRhs? ==>
       t1[i] == GetIndex(s2, eqs[i].lhs.column) && t0[i] == GetIndex(s1, eqs[i].rhs.col.column))
  }

  /** EqJoin<true>'s constants: the EQ factors become the two key lists,
      the other factors the residual selector (none when there are none).
      The residual is two-sided, so its leaves compare two positions of
      the joined tuple. */
  method PlanHashJoin(s1: Schema, s2: Schema, jc0: AndTerms)
    returns (t0: seq<nat>, t1: seq<nat>, rest: Option<Selector.Selector>)
    requires forall j :: 0 <= j < |jc0| ==> jc0[j].rhs.ColumnRhs?
    ensures KeyIndices(s1, s2, JoinIndices.EqFactors(jc0), t0, t1)
    ensures rest.None? <==> |JoinIndices.OtherFactors(jc0)| == 0
    ensures forall t :: EqJoin.Passes(rest, t) ==
                        Normalise.AllHold(Selector.FactorOn(s1, Some(s2), t), JoinIndices.OtherFactors(jc0))
  {
    var eqConditions, theRest := JoinIndices.SiftJoinCondition(jc0);
    SiftedFrom(jc0);
    assert forall i :: 0 <= i < |eqConditions| ==> eqConditions[i] in jc0;
    assert forall i :: 0 <= i < |theRest| ==> theRest[i] in jc0;
    t0, t1 := JoinIndices.MakeJoinIndices(s1, s2, |eqConditions|, eqConditions);
    if |theRest| == 0 {
      rest := None;
      return;
    }
    var n := |theRest|;
    var lhs := Selector.MakeIndices1d(s1, Some(s2), true, n, n, theRest);
    var rhs := Selector.MakeIndices1d(s1, Some(s2), false, n, n, theRest);
    var cops := Selector.MakeCopList1d(n, n, theRest);
    var tags := Selector.MakeRhsTypeList1d(n, n, theRest);
    assert theRest[..n] == theRest;
    Selector.RowMeaning(s1, Some(s2), false, n, n, theRest, lhs, rhs, cops, tags, []);
    rest := Some(Selector.MakeSelectorAndCons(false, lhs, rhs, cops, tags, n, theRest).value);
    forall t ensures EqJoin.Passes(rest, t) == Normalise.AllHold(Selector.FactorOn(s1, Some(s2), t), theRest) {
      Selector.RowMeaning(s1, Some(s2), false, n, n, theRest, lhs, rhs, cops, tags, t);
    }
  }

  /** Two values of one kind: the key columns of a hash join have equal
      C++ types (planner.h:84). */
  predicate SameKind(a: Value, b: Value)
  {
    (a.Int? && b.Int?) || (a.Real? && b.Real?) || (a.Str? && b.Str?)
  }

  /** The key entries of a pair of rows are pairwise of one kind. */
  predicate KeysOfOneKind(t0: seq<nat>, t1: seq<nat>, l: Tuple, r: Tuple)
  {
    forall i :: 0 <= i < |t0| && i < |t1| && t0[i] < |l| && t1[i] < |r| ==> SameKind(l[t0[i]], r[t1[i]])
  }

  /** An EQ factor the hash join can key on: it compares a field of one
      table with a field of the other. */
  predicate KeyFactor(s1: Schema, s2: Schema, bf: BooleanFactor)
  {
    bf.rhs.ColumnRhs? &&
    ((bf.lhs.table == "0" && bf.rhs.col.table == "1" &&
      bf.lhs.column in MemberList(s1) && bf.rhs.col.column in MemberList(s2)) ||
     (bf.lhs.table == "1" && bf.rhs.col.table == "0" &&
      bf.lhs.column in MemberList(s2) && bf.rhs.col.column in MemberList(s1)))
  }

  /** One EQ factor holds on the joined tuple exactly when the two key
      entries it contributes are equal. */
  lemma KeyFactorMeaning(s1: Schema, s2: Schema, bf: BooleanFactor, k0: nat, k1: nat, l: Tuple, r: Tuple)
    requires KeyFactor(s1, s2, bf) && bf.cop == EQ && |l| == |s1.fields| && |r| == |s2.fields|
    requires bf.lhs.table == "0" ==> k0 == GetIndex(s1, bf.lhs.column) && k1 == GetIndex(s2, bf.rhs.col.column)
    requires bf.lhs.table != "0" ==> k1 == GetIndex(s2, bf.lhs.column) && k0 == GetIndex(s1, bf.rhs.col.column)
    requires SameKind(l[k0], r[k1])
    ensures Selector.FactorOn(s1, Some(s2), l + r)(bf) <==> l[k0] == r[k1]
  {
    var lr := l + r;
    assert lr[k0] == l[k0] && lr[|l| + k1] == r[k1];
    if bf.lhs.table == "0" {
      assert Selector.ColumnIndex(s1, Some(s2), bf.lhs) == k0;
      assert Selector.ColumnIndex(s1, Some(s2), bf.rhs.col) == |l| + k1;
      SameIsEquality(l[k0], r[k1]);
    } else {
      assert Selector.ColumnIndex(s1, Some(s2), bf.lhs) == |l| + k1;
      assert Selector.ColumnIndex(s1, Some(s2), bf.rhs.col) == k0;
      SameIsEquality(r[k1], l[k0]);
    }
  }

  /** A conjunction split into two parts holds exactly when both do. */
  lemma AllHoldPartition(p: BooleanFactor -> bool, a: AndTerms, b: AndTerms, c: AndTerms)
    requires multiset(a) + multiset(b) == multiset(c)
    ensures Normalise.AllHold(p, c) == (Normalise.AllHold(p, a) && Normalise.AllHold(p, b))
  {
    forall j | 0 <= j < |a| ensures a[j] in c {
      assert a[j] in multiset(c);
    }
    forall j | 0 <= j < |b| ensures b[j] in c {
      assert b[j] in multiset(c);
    }
    forall j | 0 <= j < |c| ensures c[j] in a || c[j] in b {
      assert c[j] in multiset(a) + multiset(b);
    }
  }

  /** The EQ factors hold on the joined tuple exactly when the two key
      projections agree. */
  lemma EqFactorsMeaning(s1: Schema, s2: Schema, eqs: AndTerms, t0: seq<nat>, t1: seq<nat>, l: Tuple, r: Tuple)
    requires forall i :: 0 <= i < |eqs| ==> eqs[i].cop == EQ && KeyFactor(s1, s2, eqs[i])
    requires KeyIndices(s1, s2, eqs, t0, t1)
    requires |l| == |s1.fields| && |r| == |s2.fields| && |s1.fields| < Projector.CntAggMark && |s2.fields| < Projector.CntAggMark
    requires KeysOfOneKind(t0, t1, l, r)
    ensures Normalise.AllHold(Selector.FactorOn(s1, Some(s2), l + r), eqs) <==>
            Projector.Project(t0, l) == Projector.Project(t1, r)
  {
    var p := Selector.FactorOn(s1, Some(s2), l + r);
    forall i | 0 <= i < |eqs| ensures t0[i] < |l| && t1[i] < |r| && (p(eqs[i]) <==> l[t0[i]] == r[t1[i]]) {
      KeyFactorMeaning(s1, s2, eqs[i], t0[i], t1[i], l, r);
    }
    var pl, pr := Projector.Project(t0, l), Projector.Project(t1, r);
    if forall i :: 0 <= i < |eqs| ==> l[t0[i]] == r[t1[i]] {
      assert forall i :: 0 <= i < |eqs| ==> pl[i] == pr[i];
    }
    if pl == pr {
      assert forall i :: 0 <= i < |eqs| ==> pl[i] == l[t0[i]] && pr[i] == r[t1[i]];
    }
  }

  /** The hash join keeps a pair exactly when the join condition's single
      AND-clause holds on it: equal keys are the EQ factors, the residual
      selector the rest. */
  lemma HashJoinKeepsCondition(s1: Schema, s2: Schema, jc0: AndTerms, t0: seq<nat>, t1: seq<nat>,
                               rest: Option<Selector.Selector>, l: Tuple, r: Tuple)
    requires forall j :: 0 <= j < |jc0| && jc0[j].cop == EQ ==> KeyFactor(s1, s2, jc0[j])
    requires KeyIndices(s1, s2, JoinIndices.EqFactors(jc0), t0, t1)
    requires EqJoin.Passes(rest, l + r) ==
             Normalise.AllHold(Selector.FactorOn(s1, Some(s2), l + r), JoinIndices.OtherFactors(jc0))
    requires |l| == |s1.fields| && |r| == |s2.fields| && |s1.fields| < Projector.CntAggMark && |s2.fields| < Projector.CntAggMark
    requires KeysOfOneKind(t0, t1, l, r)
    ensures EqJoin.Keeps(EqJoin.ByKey(t0, t1, rest), l, r) == Normalise.DnfHolds(Selector.FactorOn(s1, Some(s2), l + r), [jc0])
  {
    var p := Selector.FactorOn(s1, Some(s2), l + r);
    var eqs := JoinIndices.EqFactors(jc0);
    EqFactorsKey(s1, s2, jc0);
    EqFactorsMeaning(s1, s2, eqs, t0, t1, l, r);
    JoinIndices.SiftJoinConditionPartition(jc0);
    ClauseSplit(p, jc0, eqs, JoinIndices.OtherFactors(jc0),
                Projector.Project(t0, l) == Projector.Project(t1, r), EqJoin.Passes(rest, l + r));
  }

  /** A clause split into two parts, each decided by a test, holds exactly
      when both tests pass. */
  lemma ClauseSplit(p: BooleanFactor -> bool, jc0: AndTerms, a: AndTerms, b: AndTerms, testA: bool, testB: bool)
    requires multiset(a) + multiset(b) == multiset(jc0)
    requires testA == Normalise.AllHold(p, a) && testB == Normalise.AllHold(p, b)
    ensures (testA && testB) == Normalise.DnfHolds(p, [jc0])
  {
    AllHoldPartition(p, a, b, jc0);
    assert [jc0][0] == jc0;
  }

  /** The EQ factors of a clause whose EQ factors are keys are keys. */
  lemma EqFactorsKey(s1: Schema, s2: Schema, jc0: AndTerms)
    requires forall j :: 0 <= j < |jc0| && jc0[j].cop == EQ ==> KeyFactor(s1, s2, jc0[j])
    ensures forall i :: 0 <= i < |JoinIndices.EqFactors(jc0)| ==>
              JoinIndices.EqFactors(jc0)[i].cop == EQ && KeyFactor(s1, s2, JoinIndices.EqFactors(jc0)[i])
  {
    var eqs := JoinIndices.EqFactors(jc0);
    SiftedFrom(jc0);
    JoinIndices.SiftJoinConditionOperators(jc0);
    forall i | 0 <= i < |eqs| ensures eqs[i].cop == EQ && KeyFactor(s1, s2, eqs[i]) {
      assert eqs[i] in jc0;
      var j :| 0 <= j < |jc0| && jc0[j] == eqs[i];
    }
  }

  // ---------------------------------------------------------------------
  // The nested-loop plan

  /** EqJoin<false>'s selector as written: make_dnf_selector with
      one_side = true over the join condition, whose factors are
      two-sided. A one-sided leaf reads the rhs as a literal of the tag's
      type, and a column's tag COLNAME selects the string alternative, so
      building the selector fails on the first factor. */
  method NestedLoopSelectorAsWritten(s1: Schema, s2: Schema, jc: OrTerms) returns (r: Result<Option<Selector.Selector>>)
    ensures (exists i, j :: 0 <= i < |jc| && 0 <= j < |jc[i]| && jc[i][j].rhs.ColumnRhs?) ==> r == Err(BadVariantAccess)
    ensures |jc| == 0 ==> r == Ok(None)
  {
    r := DnfSelectorOf(true, s1, Some(s2), jc);
  }

  /** EqJoin<false>'s selector as intended: make_dnf_selector with
      one_side = false, which compares two positions of the joined tuple,
      or no selector for an empty join condition. */
  method NestedLoopSelector(s1: Schema, s2: Schema, jc: OrTerms) returns (sel: Option<Selector.Selector>)
    requires AllTwoSided(jc)
    ensures sel.None? <==> |jc| == 0
    ensures forall t :: EqJoin.Passes(sel, t) == Normalise.DnfHolds(Selector.FactorOn(s1, Some(s2), t), jc)
  {
    assert SidesMatch(false, jc);
    var r := DnfSelectorOf(false, s1, Some(s2), jc);
    sel := r.value;
  }

  // ---------------------------------------------------------------------
  // The join and the whole plan

  /** impl::Join: no join without a join condition, EqJoin<true> when the
      condition admits an equi-join, EqJoin<false> otherwise. */
  datatype JoinPlan =
    | NoJoin
    | HashJoinPlan(t0: seq<nat>, t1: seq<nat>, rest: Option<Selector.Selector>)
    | NestedLoopPlan(sel: Option<Selector.Selector>)

  /** What decides whether a pair of rows is joined. */
  function KeepOf(j: JoinPlan): EqJoin.Keep
    requires !j.NoJoin?
  {
    match j
    case HashJoinPlan(t0, t1, rest) => EqJoin.ByKey(t0, t1, rest)
    case NestedLoopPlan(sel) => EqJoin.BySelector(sel)
  }

  /** EqJoin's join(l_input, r_input, l_materialised, r_materialised): the
      hash join ignores materialisation; the nested loop runs the left
      input inside when the left is materialised (both materialised
      forwards to the left-only overload), runs it outside otherwise, and
      first materialises the right input when neither is.
      Whatever the order, the rows are those of the product filtered by
      the plan's test. */
  method Join(j: JoinPlan, l: seq<Tuple>, r: seq<Tuple>, lMaterialised: bool, rMaterialised: bool)
    returns (out: seq<Tuple>)
    requires !j.NoJoin?
    ensures multiset(out) == multiset(EqJoin.Product(KeepOf(j), l, r))
    ensures j.NestedLoopPlan? && !lMaterialised ==> out == EqJoin.Product(KeepOf(j), l, r)
    ensures j.NestedLoopPlan? && lMaterialised ==> out == EqJoin.ProductRightOuter(KeepOf(j), l, r)
  {
    match j {
      case HashJoinPlan(t0, t1, rest) =>
        out := EqJoin.HashJoin(l, r, t0, t1, rest);
      case NestedLoopPlan(sel) =>
        if lMaterialised && rMaterialised {
          out := EqJoin.NestedLoopBothMaterialised(l, r, sel);
          EqJoin.LoopOrdersAgree(KeepOf(j), l, r);
        } else if lMaterialised {
          out := EqJoin.NestedLoopRightOuter(l, r, sel);
          EqJoin.LoopOrdersAgree(KeepOf(j), l, r);
        } else if rMaterialised {
          out := EqJoin.NestedLoopLeftOuter(l, r, sel);
        } else {
          out := EqJoin.NestedLoopNoneMaterialised(l, r, sel);
        }
    }
  }

  /** A test that means the join condition on every pair of input rows
      makes the join's output exactly the concatenated pairs the condition
      holds on. */
  lemma JoinedRows(s1: Schema, s2: Option<Schema>, jc: OrTerms, k: EqJoin.Keep, ls: seq<Tuple>, rs: seq<Tuple>,
                   out: seq<Tuple>, x: Tuple)
    requires forall i, j :: 0 <= i < |ls| && 0 <= j < |rs| ==>
               EqJoin.Keeps(k, ls[i], rs[j]) == Normalise.DnfHolds(Selector.FactorOn(s1, s2, ls[i] + rs[j]), jc)
    requires multiset(out) == multiset(EqJoin.Product(k, ls, rs))
    ensures x in out <==>
            exists i, j :: 0 <= i < |ls| && 0 <= j < |rs| &&
              Normalise.DnfHolds(Selector.FactorOn(s1, s2, ls[i] + rs[j]), jc) && x == ls[i] + rs[j]
  {
    assert x in out <==> x in multiset(out);
    assert x in EqJoin.Product(k, ls, rs) <==> x in multiset(EqJoin.Product(k, ls, rs));
    EqJoin.ProductMembers(k, ls, rs, x);
  }

  /** A column reference that names a field of the table it is tagged with. */
  predicate ColumnResolved(s1: Schema, s2: Schema, c: BasicColumnName)
  {
    (c.table == "0" && c.column in MemberList(s1)) || (c.table == "1" && c.column in MemberList(s2))
  }

  /** Every column of the join condition is resolved. */
  predicate JoinResolved(s1: Schema, s2: Schema, jc: OrTerms)
  {
    forall i, j :: 0 <= i < |jc| && 0 <= j < |jc[i]| ==>
      ColumnResolved(s1, s2, jc[i][j].lhs) && (jc[i][j].rhs.ColumnRhs? ==> ColumnResolved(s1, s2, jc[i][j].rhs.col))
  }

  /** A well-formed join condition of fields only. */
  predicate TwoTableCondition(s1: Schema, s2: Schema, jc: OrTerms)
  {
    JoinResolved(s1, s2, jc) && AllTwoSided(jc) &&
    forall i, j :: 0 <= i < |jc| && 0 <= j < |jc[i]| ==> !SameTable(jc[i][j])
  }

  /** The hash-join test means the join condition on rows of the two
      tables whose key entries are of one kind (the types the key columns
      must share). */
  lemma HashPlanMeaning(s1: Schema, s2: Schema, jc: OrTerms, t0: seq<nat>, t1: seq<nat>, rest: Option<Selector.Selector>)
    requires |jc| == 1 && TwoTableCondition(s1, s2, jc)
    requires KeyIndices(s1, s2, JoinIndices.EqFactors(jc[0]), t0, t1)
    requires forall t :: EqJoin.Passes(rest, t) ==
                         Normalise.AllHold(Selector.FactorOn(s1, Some(s2), t), JoinIndices.OtherFactors(jc[0]))
    requires |s1.fields| < Projector.CntAggMark && |s2.fields| < Projector.CntAggMark
    ensures forall l: Tuple, r: Tuple :: |l| == |s1.fields| && |r| == |s2.fields| && KeysOfOneKind(t0, t1, l, r) ==>
              EqJoin.Keeps(EqJoin.ByKey(t0, t1, rest), l, r) == Normalise.DnfHolds(Selector.FactorOn(s1, Some(s2), l + r), jc)
  {
    var jc0 := jc[0];
    assert [jc0] == jc;
    forall j | 0 <= j < |jc0| && jc0[j].cop == EQ ensures KeyFactor(s1, s2, jc0[j]) {
      assert ColumnResolved(s1, s2, jc[0][j].lhs) && !SameTable(jc[0][j]);
    }
    forall l: Tuple, r: Tuple | |l| == |s1.fields| && |r| == |s2.fields| && KeysOfOneKind(t0, t1, l, r)
      ensures EqJoin.Keeps(EqJoin.ByKey(t0, t1, rest), l, r) == Normalise.DnfHolds(Selector.FactorOn(s1, Some(s2), l + r), jc)
    {
      HashJoinKeepsCondition(s1, s2, jc0, t0, t1, rest, l, r);
    }
  }

  /** What the join plan promises: no join exactly without a join
      condition, the hash join exactly for one AND-clause with an EQ
      factor; the nested-loop test means the condition on every pair, and
      the hash-join test its keys and, for a resolved condition over rows
      whose keys are of one kind, the condition. */
  ghost predicate JoinSound(s1: Schema, s2: Option<Schema>, jc: OrTerms, j: JoinPlan)
  {
    (j.NoJoin? <==> |jc| == 0) &&
    (j.HashJoinPlan? <==> |jc| == 1 && exists k :: 0 <= k < |jc[0]| && jc[0][k].cop == EQ) &&
    (j.NestedLoopPlan? ==>
       (j.sel.None? <==> |jc| == 0) &&
       forall l: Tuple, r: Tuple :: EqJoin.Keeps(KeepOf(j), l, r) == Normalise.DnfHolds(Selector.FactorOn(s1, s2, l + r), jc)) &&
    (j.HashJoinPlan? ==>
       s2.Some? && |jc| == 1 &&
       KeyIndices(s1, s2.value, JoinIndices.EqFactors(jc[0]), j.t0, j.t1) &&
       (j.rest.None? <==> |JoinIndices.OtherFactors(jc[0])| == 0) &&
       (TwoTableCondition(s1, s2.value, jc) && |s1.fields| < Projector.CntAggMark && |s2.value.fields| < Projector.CntAggMark ==>
          forall l: Tuple, r: Tuple :: |l| == |s1.fields| && |r| == |s2.value.fields| && KeysOfOneKind(j.t0, j.t1, l, r) ==>
            EqJoin.Keeps(KeepOf(j), l, r) == Normalise.DnfHolds(Selector.FactorOn(s1, s2, l + r), jc)))
  }

  /** The join strategy of the planner, with the corrected nested-loop
      selector. */
  method PlanJoin(s1: Schema, s2: Option<Schema>, jc: OrTerms) returns (j: JoinPlan)
    requires AllTwoSided(jc) && (|jc| > 0 ==> s2.Some?)
    ensures JoinSound(s1, s2, jc, j)
  {
    if |jc| == 0 {
      return NoJoin;
    }
    var admits := AdmitsEqJoin(jc);
    if admits {
      var t0, t1, rest := PlanHashJoin(s1, s2.value, jc[0]);
      j := HashJoinPlan(t0, t1, rest);
      if TwoTableCondition(s1, s2.value, jc) && |s1.fields| < Projector.CntAggMark && |s2.value.fields| < Projector.CntAggMark {
        HashPlanMeaning(s1, s2.value, jc, t0, t1, rest);
      }
    } else {
      var sel := NestedLoopSelector(s1, s2.value, jc);
      j := NestedLoopPlan(sel);
    }
  }

  /** Everything QueryPlanner derives from the resolved query. */
  datatype QueryPlan = QueryPlan(where: WherePlan, join: JoinPlan, projIndices: seq<nat>, aggOps: seq<AggOp>,
                                 hasProjector: bool, needReduce: bool, grouped: bool, groupBy: seq<nat>)

  /** QueryPlanner over the resolved query: the WHERE plan, the refusal of
      a join factor whose two sides name one table (a static_assert, so no
      plan), the join plan, the projector's indices and aggregates, and
      the reduction: none unless some column aggregates, grouped exactly
      when there are group-by keys. The WHERE factors are literal and the
      join factors two-sided, as the parser builds them, and a join
      condition comes with a second table. */
  method PlanQuery(s1: Schema, s2: Option<Schema>, res: Query) returns (r: Result<QueryPlan>)
    requires Everywhere(Literal, res.whereCondition) && AllTwoSided(res.joinCondition)
    requires |res.joinCondition| > 0 ==> s2.Some?
    ensures r.Err? <==> exists i, j :: 0 <= i < |res.joinCondition| && 0 <= j < |res.joinCondition[i]| &&
                                      SameTable(res.joinCondition[i][j])
    ensures r.Err? ==> r.error == MalformedJoinCondition
    ensures r.Ok? ==> WhereSound(s1, s2, res.whereCondition, r.value.where)
    ensures r.Ok? ==> JoinSound(s1, s2, res.joinCondition, r.value.join)
    ensures r.Ok? ==> |r.value.projIndices| == |res.cns| && |r.value.aggOps| == |res.cns|
    ensures r.Ok? ==> forall i :: 0 <= i < |res.cns| ==>
                        r.value.aggOps[i] == res.cns[i].agg &&
                        r.value.projIndices[i] == (if res.cns[i].agg == COUNT then Projector.CntAggMark
                                                   else Projector.EntryIndex(s1, s2, res.cns[i]))
    ensures r.Ok? ==> (r.value.hasProjector <==> |res.cns| > 0)
    ensures r.Ok? ==> r.value.needReduce == Projector.NeedReduction(r.value.aggOps)
    ensures r.Ok? ==> (r.value.grouped <==> r.value.needReduce && |res.groupByKeys| > 0)
    ensures r.Ok? && r.value.grouped ==>
              |r.value.groupBy| == |res.groupByKeys| &&
              forall i :: 0 <= i < |res.groupByKeys| ==> r.value.groupBy[i] == Projector.EntryIndex(s1, s2, res.groupByKeys[i])
  {
    var w := PlanWhere(s1, s2, res.whereCondition);
    var wellFormed := IsJoinWellFormed(res.joinCondition);
    if !wellFormed {
      return Err(MalformedJoinCondition);
    }
    var j := PlanJoin(s1, s2, res.joinCondition);
    var indices, aggOps := Projector.MakeIndicesAndAggOps(s1, s2, res.cns);
    var needReduce := Projector.NeedReduction(aggOps);
    var grouped := needReduce && |res.groupByKeys| > 0;
    var gb: seq<nat> := [];
    if grouped {
      gb := ReduceGroup.GroupByIndices(s1, s2, res.groupByKeys);
    }
    r := Ok(QueryPlan(w, j, indices, aggOps, |res.cns| > 0, needReduce, grouped, gb));
  }
}
