/** Equi-join preparation (include/operator/join.h): splitting the single
    AND-clause of a join condition into its EQ factors and the rest, and
    the two key-index lists the hash join projects on. */
module JoinIndices {
  import opened Wrappers
  import opened Common
  import opened Schema
  import Selector

  /** The factors of a conjunction with operator EQ, in order. */
  function EqFactors(bfs: AndTerms): (r: AndTerms)
    ensures |r| <= |bfs|
  {
    if |bfs| == 0 then []
    else EqFactors(bfs[..|bfs| - 1]) + (if bfs[|bfs| - 1].cop == EQ then [bfs[|bfs| - 1]] else [])
  }

  /** The factors of a conjunction with any other operator, in order. */
  function OtherFactors(bfs: AndTerms): (r: AndTerms)
    ensures |r| <= |bfs|
  {
    if |bfs| == 0 then []
    else OtherFactors(bfs[..|bfs| - 1]) + (if bfs[|bfs| - 1].cop != EQ then [bfs[|bfs| - 1]] else [])
  }

  /** sift_join_condition: one pass pushing each factor onto the EQ list or
      onto the rest. */
  method SiftJoinCondition(bfs: AndTerms) returns (eqConditions: AndTerms, theRest: AndTerms)
    ensures eqConditions == EqFactors(bfs) && theRest == OtherFactors(bfs)
  {
    eqConditions, theRest := [], [];
    var i := 0;
    while i < |bfs|
      invariant 0 <= i <= |bfs|
      invariant eqConditions == EqFactors(bfs[..i]) && theRest == OtherFactors(bfs[..i])
    {
      assert bfs[..i + 1][..i] == bfs[..i];
      if bfs[i].cop == EQ {
        eqConditions := eqConditions + [bfs[i]];
      } else {
        theRest := theRest + [bfs[i]];
      }
      i := i + 1;
    }
    assert bfs[..|bfs|] == bfs;
  }

  /** The split is by operator: every EQ factor goes to the first list and
      every other factor to the second. */
  lemma {:induction false} SiftJoinConditionOperators(bfs: AndTerms)
    ensures forall j :: 0 <= j < |EqFactors(bfs)| ==> EqFactors(bfs)[j].cop == EQ
    ensures forall j :: 0 <= j < |OtherFactors(bfs)| ==> OtherFactors(bfs)[j].cop != EQ
  {
    if |bfs| > 0 {
      SiftJoinConditionOperators(bfs[..|bfs| - 1]);
    }
  }

  /** The split is a partition: no factor is lost or duplicated. */
  lemma {:induction false} SiftJoinConditionPartition(bfs: AndTerms)
    ensures |EqFactors(bfs)| + |OtherFactors(bfs)| == |bfs|
    ensures multiset(EqFactors(bfs)) + multiset(OtherFactors(bfs)) == multiset(bfs)
  {
    if |bfs| > 0 {
      var init, last := bfs[..|bfs| - 1], bfs[|bfs| - 1];
      SiftJoinConditionPartition(init);
      assert bfs == init + [last];
      assert multiset(bfs) == multiset(init) + multiset{last};
      if last.cop == EQ {
        assert EqFactors(bfs) == EqFactors(init) + [last];
        assert OtherFactors(bfs) == OtherFactors(init);
      } else {
        assert EqFactors(bfs) == EqFactors(init);
        assert OtherFactors(bfs) == OtherFactors(init) + [last];
      }
    }
  }

  /** Each list keeps the input order: the lists of a concatenation are
      the concatenations of the lists. */
  lemma {:induction false} SiftJoinConditionOrder(bfs: AndTerms, more: AndTerms)
    ensures EqFactors(bfs + more) == EqFactors(bfs) + EqFactors(more)
    ensures OtherFactors(bfs + more) == OtherFactors(bfs) + OtherFactors(more)
  {
    if |more| == 0 {
      assert bfs + more == bfs;
    } else {
      var init := more[..|more| - 1];
      assert (bfs + more)[..|bfs + more| - 1] == bfs + init;
      SiftJoinConditionOrder(bfs, init);
    }
  }

  /** The key positions one EQ factor contributes: the S1 position of the
      side tagged "0" and the S2 position of the other side. */
  predicate KeyPair(s1: Schema, s2: Schema, bf: BooleanFactor, x0: nat, x1: nat)
    requires bf.rhs.ColumnRhs?
  {
    if bf.lhs.table == "0" then x0 == GetIndex(s1, bf.lhs.column) && x1 == GetIndex(s2, bf.rhs.col.column)
    else x1 == GetIndex(s2, bf.lhs.column) && x0 == GetIndex(s1, bf.rhs.col.column)
  }

  /** make_join_indices: for each of the n EQ factors, the S1 position of
      the side tagged "0" and the S2 position of the other side. */
  method MakeJoinIndices(s1: Schema, s2: Schema, n: nat, bfs: AndTerms) returns (t0: seq<nat>, t1: seq<nat>)
    requires n <= |bfs| && forall i :: 0 <= i < n ==> bfs[i].rhs.ColumnRhs?
    ensures |t0| == n && |t1| == n
    ensures forall i :: 0 <= i < n && bfs[i].lhs.table == "0" ==>
              t0[i] == GetIndex(s1, bfs[i].lhs.column) && t1[i] == GetIndex(s2, bfs[i].rhs.col.column)
    ensures forall i :: 0 <= i < n && bfs[i].lhs.table != "0" ==>
              t1[i] == GetIndex(s2, bfs[i].lhs.column) && t0[i] == GetIndex(s1, bfs[i].rhs.col.column)
  {
    var a0 := new nat[n](_ => 0);
    var a1 := new nat[n](_ => 0);
    var i := 0;
    while i < n
      invariant 0 <= i <= n
      invariant forall k :: 0 <= k < i ==> KeyPair(s1, s2, bfs[k], a0[k], a1[k])
    {
      var bf := bfs[i];
      if bf.lhs.table == "0" {
        a0[i] := Selector.ColumnIndex(s1, None, bf.lhs);
        a1[i] := Selector.ColumnIndex(s2, None, bf.rhs.col);
      } else {
        a1[i] := Selector.ColumnIndex(s2, None, bf.lhs);
        a0[i] := Selector.ColumnIndex(s1, None, bf.rhs.col);
      }
      assert KeyPair(s1, s2, bf, a0[i], a1[i]);
      i := i + 1;
    }
    t0, t1 := a0[..], a1[..];
    assert forall k :: 0 <= k < n ==> KeyPair(s1, s2, bfs[k], t0[k], t1[k]);
  }
}
