/** The join operators of include/planner.h: the hash join that EqJoin<true>
    runs when the join condition is one conjunction with an EQ factor, and
    the four nested-loop joins of EqJoin<false>. Inputs are finite
    sequences of tuples; the output is the sequence of joined tuples l ++ r
    the operator yields, in yield order. */
module EqJoin {
  import opened Wrappers
  import opened Common
  import Selector
  import Projector

  /** The condition a join keeps a pair under: a selector on l ++ r (none
      when the join condition is empty), or equal key projections of l and
      r plus a residual selector on l ++ r (none when every factor is EQ). */
  datatype Keep =
    | BySelector(sel: Option<Selector.Selector>)
    | ByKey(t0: seq<nat>, t1: seq<nat>, rest: Option<Selector.Selector>)

  predicate Passes(sel: Option<Selector.Selector>, t: Tuple)
  {
    sel.None? || Selector.Eval(sel.value, t)
  }

  predicate Keeps(k: Keep, l: Tuple, r: Tuple)
  {
    match k
    case BySelector(sel) => Passes(sel, l + r)
    case ByKey(t0, t1, rest) => Projector.Project(t0, l) == Projector.Project(t1, r) && Passes(rest, l + r)
  }

  /** The kept pairs of one left tuple with every right tuple, right
      order. */
  function Row(k: Keep, l: Tuple, rs: seq<Tuple>): seq<Tuple>
  {
    if |rs| == 0 then []
    else Row(k, l, rs[..|rs| - 1]) + (if Keeps(k, l, rs[|rs| - 1]) then [l + rs[|rs| - 1]] else [])
  }

  /** The kept pairs, left tuple outermost. */
  function Product(k: Keep, ls: seq<Tuple>, rs: seq<Tuple>): seq<Tuple>
  {
    if |ls| == 0 then []
    else Product(k, ls[..|ls| - 1], rs) + Row(k, ls[|ls| - 1], rs)
  }

  /** The kept pairs of every left tuple with one right tuple, left order. */
  function Column(k: Keep, ls: seq<Tuple>, r: Tuple): seq<Tuple>
  {
    if |ls| == 0 then []
    else Column(k, ls[..|ls| - 1], r) + (if Keeps(k, ls[|ls| - 1], r) then [ls[|ls| - 1] + r] else [])
  }

  /** The kept pairs, right tuple outermost. */
  function ProductRightOuter(k: Keep, ls: seq<Tuple>, rs: seq<Tuple>): seq<Tuple>
  {
    if |rs| == 0 then []
    else ProductRightOuter(k, ls, rs[..|rs| - 1]) + Column(k, ls, rs[|rs| - 1])
  }

  // ---------------------------------------------------------------------
  // Nested-loop joins (EqJoin<false>)

  /** join(l, r, true, false): the left input is materialised, so the right
      input drives the outer loop. */
  method NestedLoopRightOuter(l: seq<Tuple>, r: seq<Tuple>, sel: Option<Selector.Selector>) returns (out: seq<Tuple>)
    ensures out == ProductRightOuter(BySelector(sel), l, r)
  {
    out := [];
    var j := 0;
    while j < |r|
      invariant 0 <= j <= |r|
      invariant out == ProductRightOuter(BySelector(sel), l, r[..j])
    {
      assert r[..j + 1][..j] == r[..j];
      var i := 0;
      while i < |l|
        invariant 0 <= i <= |l|
        invariant out == ProductRightOuter(BySelector(sel), l, r[..j]) + Column(BySelector(sel), l[..i], r[j])
      {
        assert l[..i + 1][..i] == l[..i];
        if Passes(sel, l[i] + r[j]) {
          out := out + [l[i] + r[j]];
        }
        i := i + 1;
      }
      assert l[..|l|] == l;
      j := j + 1;
    }
    assert r[..|r|] == r;
  }

  /** join(l, r, false, true): the right input is materialised, so the
      left input drives the outer loop. */
  method NestedLoopLeftOuter(l: seq<Tuple>, r: seq<Tuple>, sel: Option<Selector.Selector>) returns (out: seq<Tuple>)
    ensures out == Product(BySelector(sel), l, r)
  {
    out := [];
    var i := 0;
    while i < |l|
      invariant 0 <= i <= |l|
      invariant out == Product(BySelector(sel), l[..i], r)
    {
      assert l[..i + 1][..i] == l[..i];
      var j := 0;
      while j < |r|
        invariant 0 <= j <= |r|
        invariant out == Product(BySelector(sel), l[..i], r) + Row(BySelector(sel), l[i], r[..j])
      {
        assert r[..j + 1][..j] == r[..j];
        if Passes(sel, l[i] + r[j]) {
          out := out + [l[i] + r[j]];
        }
        j := j + 1;
      }
      assert r[..|r|] == r;
      i := i + 1;
    }
    assert l[..|l|] == l;
  }

  /** join(l, r, true, true): both inputs materialised; it runs the
      (true, false) join. */
  method NestedLoopBothMaterialised(l: seq<Tuple>, r: seq<Tuple>, sel: Option<Selector.Selector>) returns (out: seq<Tuple>)
    ensures out == ProductRightOuter(BySelector(sel), l, r)
  {
    out := NestedLoopRightOuter(l, r, sel);
  }

  /** join(l, r, false, false): neither input materialised; it copies the
      right input into a vector and runs the (false, true) join on it. */
  method NestedLoopNoneMaterialised(l: seq<Tuple>, r: seq<Tuple>, sel: Option<Selector.Selector>) returns (out: seq<Tuple>)
    ensures out == Product(BySelector(sel), l, r)
  {
    var materialised: seq<Tuple> := [];
    var j := 0;
    while j < |r|
      invariant 0 <= j <= |r|
      invariant materialised == r[..j]
    {
      materialised := materialised + [r[j]];
      j := j + 1;
    }
    assert materialised == r;
    out := NestedLoopLeftOuter(l, materialised, sel);
  }

  // ---------------------------------------------------------------------
  // What the nested loops yield

  lemma ProductSnoc(k: Keep, ls: seq<Tuple>, l: Tuple, rs: seq<Tuple>)
    ensures Product(k, ls + [l], rs) == Product(k, ls, rs) + Row(k, l, rs)
  {
    assert (ls + [l])[..|ls|] == ls;
  }

  lemma ProductRightOuterSnoc(k: Keep, ls: seq<Tuple>, rs: seq<Tuple>, r: Tuple)
    ensures ProductRightOuter(k, ls, rs + [r]) == ProductRightOuter(k, ls, rs) + Column(k, ls, r)
  {
    assert (rs + [r])[..|rs|] == rs;
  }

  /** Adding a right tuple to the left-outer order adds the same pairs as
      adding it to the right-outer order. */
  lemma {:induction false} ProductAddRight(k: Keep, ls: seq<Tuple>, rs: seq<Tuple>, r: Tuple)
    ensures multiset(Product(k, ls, rs + [r])) == multiset(Product(k, ls, rs)) + multiset(Column(k, ls, r))
  {
    if |ls| > 0 {
      var init, l := ls[..|ls| - 1], ls[|ls| - 1];
      ProductAddRight(k, init, rs, r);
      assert (rs + [r])[..|rs|] == rs;
      assert Row(k, l, rs + [r]) == Row(k, l, rs) + (if Keeps(k, l, r) then [l + r] else []);
    }
  }

  /** The two loop orders yield the same pairs with the same multiplicity;
      only their order differs. */
  lemma {:induction false} LoopOrdersAgree(k: Keep, ls: seq<Tuple>, rs: seq<Tuple>)
    ensures multiset(ProductRightOuter(k, ls, rs)) == multiset(Product(k, ls, rs))
  {
    if |rs| == 0 {
      ProductNoRight(k, ls);
    } else {
      var init, r := rs[..|rs| - 1], rs[|rs| - 1];
      LoopOrdersAgree(k, ls, init);
      ProductAddRight(k, ls, init, r);
      assert init + [r] == rs;
      assert ProductRightOuter(k, ls, rs) == ProductRightOuter(k, ls, init) + Column(k, ls, r);
      assert multiset(ProductRightOuter(k, ls, rs))
             == multiset(ProductRightOuter(k, ls, init)) + multiset(Column(k, ls, r));
    }
  }

  /** Row yields l ++ r exactly for the kept right tuples. */
  lemma {:induction false} RowMembers(k: Keep, l: Tuple, rs: seq<Tuple>, x: Tuple)
    ensures x in Row(k, l, rs) <==> exists j :: 0 <= j < |rs| && Keeps(k, l, rs[j]) && x == l + rs[j]
  {
    if |rs| > 0 {
      var init := rs[..|rs| - 1];
      RowMembers(k, l, init, x);
      if exists j :: 0 <= j < |rs| && Keeps(k, l, rs[j]) && x == l + rs[j] {
        var j :| 0 <= j < |rs| && Keeps(k, l, rs[j]) && x == l + rs[j];
        if j < |init| {
          assert init[j] == rs[j];
        }
      }
      if x in Row(k, l, init) {
        var j :| 0 <= j < |init| && Keeps(k, l, init[j]) && x == l + init[j];
        assert rs[j] == init[j];
      }
    }
  }

  /** The nested-loop join yields l ++ r for exactly the kept pairs. */
  lemma ProductMembers(k: Keep, ls: seq<Tuple>, rs: seq<Tuple>, x: Tuple)
    ensures x in Product(k, ls, rs) <==>
            exists i, j :: 0 <= i < |ls| && 0 <= j < |rs| && Keeps(k, ls[i], rs[j]) && x == ls[i] + rs[j]
  {
    if x in Product(k, ls, rs) {
      ProductMembersOnlyIf(k, ls, rs, x);
    }
    if exists i, j :: 0 <= i < |ls| && 0 <= j < |rs| && Keeps(k, ls[i], rs[j]) && x == ls[i] + rs[j] {
      var i, j :| 0 <= i < |ls| && 0 <= j < |rs| && Keeps(k, ls[i], rs[j]) && x == ls[i] + rs[j];
      ProductMembersIf(k, ls, rs, i, j, x);
    }
  }

  /** Every kept pair is yielded. */
  lemma {:induction false} ProductMembersIf(k: Keep, ls: seq<Tuple>, rs: seq<Tuple>, i: nat, j: nat, x: Tuple)
    requires i < |ls| && j < |rs| && Keeps(k, ls[i], rs[j]) && x == ls[i] + rs[j]
    ensures x in Product(k, ls, rs)
  {
    var init, l := ls[..|ls| - 1], ls[|ls| - 1];
    if i < |init| {
      assert init[i] == ls[i];
      ProductMembersIf(k, init, rs, i, j, x);
    } else {
      RowMembers(k, l, rs, x);
    }
  }

  /** Every yielded tuple is a kept pair. */
  lemma {:induction false} ProductMembersOnlyIf(k: Keep, ls: seq<Tuple>, rs: seq<Tuple>, x: Tuple)
    requires x in Product(k, ls, rs)
    ensures exists i, j :: 0 <= i < |ls| && 0 <= j < |rs| && Keeps(k, ls[i], rs[j]) && x == ls[i] + rs[j]
  {
    var init, l := ls[..|ls| - 1], ls[|ls| - 1];
    assert Product(k, ls, rs) == Product(k, init, rs) + Row(k, l, rs);
    if x in Product(k, init, rs) {
      ProductMembersOnlyIf(k, init, rs, x);
      var i, j :| 0 <= i < |init| && 0 <= j < |rs| && Keeps(k, init[i], rs[j]) && x == init[i] + rs[j];
      assert ls[i] == init[i];
    } else {
      RowMembers(k, l, rs, x);
      var j :| 0 <= j < |rs| && Keeps(k, l, rs[j]) && x == l + rs[j];
      assert ls[|ls| - 1] == l;
    }
  }

  /** The blocks of a sequence of sequences, in order. */
  function Concat<T>(ss: seq<seq<T>>): seq<T>
  {
    if |ss| == 0 then [] else Concat(ss[..|ss| - 1]) + ss[|ss| - 1]
  }

  /** Blocks of one length m make a sequence of |ss| * m elements. */
  lemma {:induction false} ConcatLength<T>(ss: seq<seq<T>>, m: nat)
    requires forall i :: 0 <= i < |ss| ==> |ss[i]| == m
    ensures |Concat(ss)| == |ss| * m
  {
    if |ss| > 0 {
      ConcatLength(ss[..|ss| - 1], m);
      SuccTimes(|ss| - 1, m);
    }
  }

  /** The pairs of the cross product, one block per left tuple. */
  function CrossBlocks(ls: seq<Tuple>, rs: seq<Tuple>): (b: seq<seq<Tuple>>)
    ensures |b| == |ls| && forall i :: 0 <= i < |ls| ==> |b[i]| == |rs|
  {
    seq(|ls|, i requires 0 <= i < |ls| => seq(|rs|, j requires 0 <= j < |rs| => ls[i] + rs[j]))
  }

  /** Without a join condition every pair is yielded: the cross product in
      left-major order, |ls| * |rs| tuples. */
  lemma {:induction false} CrossProduct(ls: seq<Tuple>, rs: seq<Tuple>)
    ensures Product(BySelector(None), ls, rs) == Concat(CrossBlocks(ls, rs))
    ensures |Product(BySelector(None), ls, rs)| == |ls| * |rs|
  {
    if |ls| > 0 {
      var init, l := ls[..|ls| - 1], ls[|ls| - 1];
      CrossProduct(init, rs);
      CrossRow(l, rs);
      assert CrossBlocks(ls, rs)[..|init|] == CrossBlocks(init, rs);
    }
    ConcatLength(CrossBlocks(ls, rs), |rs|);
  }

  lemma SuccTimes(n: nat, m: nat)
    ensures (n + 1) * m == n * m + m
  {
  }

  lemma {:induction false} CrossRow(l: Tuple, rs: seq<Tuple>)
    ensures Row(BySelector(None), l, rs) == seq(|rs|, j requires 0 <= j < |rs| => l + rs[j])
  {
    if |rs| > 0 {
      CrossRow(l, rs[..|rs| - 1]);
    }
  }

  // ---------------------------------------------------------------------
  // Hash join (EqJoin<true>)

  /** The tuples whose key projection is k, in order. */
  function KeyFilter(idx: seq<nat>, ts: seq<Tuple>, k: Tuple): seq<Tuple>
  {
    if |ts| == 0 then []
    else KeyFilter(idx, ts[..|ts| - 1], k) + (if Projector.Project(idx, ts[|ts| - 1]) == k then [ts[|ts| - 1]] else [])
  }

  /** The tuples whose key projection is one of ks, in order. */
  function KeyedIn(idx: seq<nat>, ts: seq<Tuple>, ks: set<Tuple>): seq<Tuple>
  {
    if |ts| == 0 then []
    else KeyedIn(idx, ts[..|ts| - 1], ks) + (if Projector.Project(idx, ts[|ts| - 1]) in ks then [ts[|ts| - 1]] else [])
  }

  /** The dictionary `s1d[projector(t)].emplace_back(t)` builds: key
      projection to the tuples with that key, in input order. */
  function Buckets(idx: seq<nat>, ts: seq<Tuple>): map<Tuple, seq<Tuple>>
  {
    if |ts| == 0 then map[]
    else
      var d := Buckets(idx, ts[..|ts| - 1]);
      var k := Projector.Project(idx, ts[|ts| - 1]);
      d[k := (if k in d then d[k] else []) + [ts[|ts| - 1]]]
  }

  /** A key has a bucket exactly when some tuple projects to it, and the
      bucket is the tuples with that key in input order. */
  lemma {:induction false} BucketsMeaning(idx: seq<nat>, ts: seq<Tuple>, k: Tuple)
    ensures k in Buckets(idx, ts) <==> exists i :: 0 <= i < |ts| && Projector.Project(idx, ts[i]) == k
    ensures k in Buckets(idx, ts) ==> Buckets(idx, ts)[k] == KeyFilter(idx, ts, k)
    ensures k !in Buckets(idx, ts) ==> KeyFilter(idx, ts, k) == []
  {
    if |ts| > 0 {
      var init := ts[..|ts| - 1];
      BucketsMeaning(idx, init, k);
      if exists i :: 0 <= i < |init| && Projector.Project(idx, init[i]) == k {
        var i :| 0 <= i < |init| && Projector.Project(idx, init[i]) == k;
        assert ts[i] == init[i];
      }
      if exists i :: 0 <= i < |ts| && Projector.Project(idx, ts[i]) == k {
        var i :| 0 <= i < |ts| && Projector.Project(idx, ts[i]) == k;
        if i < |init| {
          assert ts[i] == init[i];
        }
      }
    }
  }

  lemma {:induction false} KeyedInAll(idx: seq<nat>, ts: seq<Tuple>, ks: set<Tuple>)
    requires forall i :: 0 <= i < |ts| ==> Projector.Project(idx, ts[i]) in ks
    ensures KeyedIn(idx, ts, ks) == ts
  {
    if |ts| > 0 {
      var init := ts[..|ts| - 1];
      assert forall i :: 0 <= i < |init| ==> init[i] == ts[i];
      KeyedInAll(idx, init, ks);
    }
  }

  lemma {:induction false} KeyedInNone(idx: seq<nat>, ts: seq<Tuple>)
    ensures KeyedIn(idx, ts, {}) == []
  {
    if |ts| > 0 {
      KeyedInNone(idx, ts[..|ts| - 1]);
    }
  }

  /** Taking one more key adds that key's pairs to the join. */
  lemma {:induction false} KeyedInAddKey(k: Keep, idx: seq<nat>, ls: seq<Tuple>, rs: seq<Tuple>, ks: set<Tuple>, key: Tuple)
    requires key !in ks
    ensures multiset(Product(k, KeyedIn(idx, ls, ks + {key}), rs))
            == multiset(Product(k, KeyedIn(idx, ls, ks), rs)) + multiset(Product(k, KeyFilter(idx, ls, key), rs))
  {
    if |ls| > 0 {
      var init, l := ls[..|ls| - 1], ls[|ls| - 1];
      KeyedInAddKey(k, idx, init, rs, ks, key);
      var lk := Projector.Project(idx, l);
      var both, old', one := KeyedIn(idx, init, ks + {key}), KeyedIn(idx, init, ks), KeyFilter(idx, init, key);
      if lk in ks {
        assert KeyedIn(idx, ls, ks + {key}) == both + [l];
        assert KeyedIn(idx, ls, ks) == old' + [l];
        assert KeyFilter(idx, ls, key) == one;
        SnocSum(k, both, old', one, l, rs);
      } else if lk == key {
        assert KeyedIn(idx, ls, ks + {key}) == both + [l];
        assert KeyedIn(idx, ls, ks) == old';
        assert KeyFilter(idx, ls, key) == one + [l];
        SnocSumRight(k, both, old', one, l, rs);
      } else {
        assert KeyedIn(idx, ls, ks + {key}) == both;
        assert KeyedIn(idx, ls, ks) == old';
        assert KeyFilter(idx, ls, key) == one;
      }
    }
  }

  /** When the pairs of a are those of b and c together, the pairs of a
      with one more left tuple are those of b with it and of c. */
  lemma SnocSum(k: Keep, a: seq<Tuple>, b: seq<Tuple>, c: seq<Tuple>, l: Tuple, rs: seq<Tuple>)
    requires multiset(Product(k, a, rs)) == multiset(Product(k, b, rs)) + multiset(Product(k, c, rs))
    ensures multiset(Product(k, a + [l], rs)) == multiset(Product(k, b + [l], rs)) + multiset(Product(k, c, rs))
  {
    ProductSnoc(k, a, l, rs);
    ProductSnoc(k, b, l, rs);
    var row := Row(k, l, rs);
    assert multiset(Product(k, a, rs) + row) == multiset(Product(k, a, rs)) + multiset(row);
    assert multiset(Product(k, b, rs) + row) == multiset(Product(k, b, rs)) + multiset(row);
  }

  /** The same, with the extra left tuple going with c. */
  lemma SnocSumRight(k: Keep, a: seq<Tuple>, b: seq<Tuple>, c: seq<Tuple>, l: Tuple, rs: seq<Tuple>)
    requires multiset(Product(k, a, rs)) == multiset(Product(k, b, rs)) + multiset(Product(k, c, rs))
    ensures multiset(Product(k, a + [l], rs)) == multiset(Product(k, b, rs)) + multiset(Product(k, c + [l], rs))
  {
    ProductSnoc(k, a, l, rs);
    ProductSnoc(k, c, l, rs);
    var row := Row(k, l, rs);
    assert multiset(Product(k, a, rs) + row) == multiset(Product(k, a, rs)) + multiset(row);
    assert multiset(Product(k, c, rs) + row) == multiset(Product(k, c, rs)) + multiset(row);
  }

  /** The tuples KeyFilter keeps all have that key. */
  lemma {:induction false} KeyFilterKeys(idx: seq<nat>, ts: seq<Tuple>, key: Tuple)
    ensures forall i :: 0 <= i < |KeyFilter(idx, ts, key)| ==> Projector.Project(idx, KeyFilter(idx, ts, key)[i]) == key
  {
    if |ts| > 0 {
      KeyFilterKeys(idx, ts[..|ts| - 1], key);
    }
  }

  /** For a left tuple with key `key`, the key-matching right tuples are
      those of that key's bucket. */
  lemma {:induction false} RowSameKey(t0: seq<nat>, t1: seq<nat>, rest: Option<Selector.Selector>, l: Tuple,
                                      rs: seq<Tuple>, key: Tuple)
    requires Projector.Project(t0, l) == key
    ensures Row(ByKey(t0, t1, rest), l, rs) == Row(BySelector(rest), l, KeyFilter(t1, rs, key))
  {
    if |rs| > 0 {
      var init, r := rs[..|rs| - 1], rs[|rs| - 1];
      RowSameKey(t0, t1, rest, l, init, key);
      var f := KeyFilter(t1, init, key);
      if Projector.Project(t1, r) == key {
        assert KeyFilter(t1, rs, key) == f + [r];
        assert (f + [r])[..|f|] == f;
        assert Row(BySelector(rest), l, f + [r])
               == Row(BySelector(rest), l, f) + (if Passes(rest, l + r) then [l + r] else []);
      } else {
        assert KeyFilter(t1, rs, key) == f;
        assert !Keeps(ByKey(t0, t1, rest), l, r);
      }
    }
  }

  lemma {:induction false} ProductSameKey(t0: seq<nat>, t1: seq<nat>, rest: Option<Selector.Selector>, ls: seq<Tuple>,
                                          rs: seq<Tuple>, key: Tuple)
    requires forall i :: 0 <= i < |ls| ==> Projector.Project(t0, ls[i]) == key
    ensures Product(ByKey(t0, t1, rest), ls, rs) == Product(BySelector(rest), ls, KeyFilter(t1, rs, key))
  {
    if |ls| > 0 {
      var init := ls[..|ls| - 1];
      assert forall i :: 0 <= i < |init| ==> init[i] == ls[i];
      ProductSameKey(t0, t1, rest, init, rs, key);
      RowSameKey(t0, t1, rest, ls[|ls| - 1], rs, key);
    }
  }

  /** One probe step: the residual-filtered pairs of the two buckets of a
      key are the join's pairs of that key's left tuples. */
  lemma ProbeStep(t0: seq<nat>, t1: seq<nat>, rest: Option<Selector.Selector>, l: seq<Tuple>, r: seq<Tuple>, key: Tuple)
    ensures Product(ByKey(t0, t1, rest), KeyFilter(t0, l, key), r)
            == Product(BySelector(rest), KeyFilter(t0, l, key), KeyFilter(t1, r, key))
  {
    KeyFilterKeys(t0, l, key);
    ProductSameKey(t0, t1, rest, KeyFilter(t0, l, key), r, key);
  }

  /** The pairs of a bucket with an empty right bucket. */
  lemma {:induction false} ProductNoRight(k: Keep, ls: seq<Tuple>)
    ensures Product(k, ls, []) == []
  {
    if |ls| > 0 {
      ProductNoRight(k, ls[..|ls| - 1]);
    }
  }

  /** One round of the probe loop keeps its invariant: the pairs the
      round yields are the join's pairs of the left tuples with key lk. */
  lemma ProbeRound(l: seq<Tuple>, r: seq<Tuple>, t0: seq<nat>, t1: seq<nat>, rest: Option<Selector.Selector>,
                   done: set<Tuple>, lk: Tuple, chunk: seq<Tuple>)
    requires lk in Buckets(t0, l) && lk !in done
    requires lk in Buckets(t1, r) ==> chunk == Product(BySelector(rest), Buckets(t0, l)[lk], Buckets(t1, r)[lk])
    requires lk !in Buckets(t1, r) ==> chunk == []
    ensures multiset(Product(ByKey(t0, t1, rest), KeyedIn(t0, l, done + {lk}), r))
            == multiset(Product(ByKey(t0, t1, rest), KeyedIn(t0, l, done), r)) + multiset(chunk)
  {
    BucketsMeaning(t0, l, lk);
    BucketsMeaning(t1, r, lk);
    ProbeStep(t0, t1, rest, l, r, lk);
    KeyedInAddKey(ByKey(t0, t1, rest), t0, l, r, done, lk);
    if lk !in Buckets(t1, r) {
      ProductNoRight(BySelector(rest), KeyFilter(t0, l, lk));
    }
  }

  /** Every left key is probed, so the probed tuples are the whole left
      input. */
  lemma ProbedAll(l: seq<Tuple>, t0: seq<nat>)
    ensures KeyedIn(t0, l, Buckets(t0, l).Keys) == l
  {
    forall i | 0 <= i < |l|
      ensures Projector.Project(t0, l[i]) in Buckets(t0, l).Keys
    {
      BucketsMeaning(t0, l, Projector.Project(t0, l[i]));
    }
    KeyedInAll(t0, l, Buckets(t0, l).Keys);
  }

  /** The build loop: `d[projector(t)].emplace_back(t)` for every tuple,
      in input order. */
  method BuildBuckets(idx: seq<nat>, ts: seq<Tuple>) returns (d: map<Tuple, seq<Tuple>>)
    ensures d == Buckets(idx, ts)
  {
    d := map[];
    var i := 0;
    while i < |ts|
      invariant 0 <= i <= |ts|
      invariant d == Buckets(idx, ts[..i])
    {
      assert ts[..i + 1][..i] == ts[..i];
      var k := Projector.Project(idx, ts[i]);
      d := d[k := (if k in d then d[k] else []) + [ts[i]]];
      i := i + 1;
    }
    assert ts[..|ts|] == ts;
  }

  /** Moving one key from the keys to probe to the probed ones. */
  lemma KeysStep(all: set<Tuple>, todo: set<Tuple>, done: set<Tuple>, lk: Tuple)
    requires todo <= all && done == all - todo && lk in todo
    ensures lk in all && lk !in done
    ensures todo - {lk} <= all && done + {lk} == all - (todo - {lk}) && |todo - {lk}| < |todo|
  {
  }

  /** EqJoin<true>::join: bucket both inputs by their key projections,
      then for every left key with a right bucket yield l ++ r for every
      pair of the two buckets that passes the residual selector. The
      dictionary's iteration order is unspecified, so the output is
      determined as a multiset: every pair with equal keys that passes the
      residual, once per occurrence of l in the left input and of r in the
      right input. */
  method HashJoin(l: seq<Tuple>, r: seq<Tuple>, t0: seq<nat>, t1: seq<nat>, rest: Option<Selector.Selector>)
    returns (out: seq<Tuple>)
    ensures multiset(out) == multiset(Product(ByKey(t0, t1, rest), l, r))
  {
    var s1d := BuildBuckets(t0, l);
    var s2d := BuildBuckets(t1, r);
    out := [];
    var done: set<Tuple> := {};
    var todo := s1d.Keys;
    KeyedInNone(t0, l);
    while todo != {}
      invariant todo <= s1d.Keys && done == s1d.Keys - todo
      invariant multiset(out) == multiset(Product(ByKey(t0, t1, rest), KeyedIn(t0, l, done), r))
      decreases |todo|
    {
      var lk :| lk in todo;
      var chunk := [];
      if lk in s2d {
        chunk := NestedLoopLeftOuter(s1d[lk], s2d[lk], rest);
      }
      KeysStep(s1d.Keys, todo, done, lk);
      ProbeRound(l, r, t0, t1, rest, done, lk, chunk);
      assert multiset(out + chunk) == multiset(out) + multiset(chunk);
      out := out + chunk;
      done := done + {lk};
      todo := todo - {lk};
    }
    assert done == s1d.Keys;
    ProbedAll(l, t0);
  }
}
