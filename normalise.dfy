/** Predicate normalisation (include/parser/preproc.h, lines 117-159): the
    carrying odometer increment_carrying_indices, the clause count
    compute_number_of_cnf_clauses and the distributive expansion
    dnf_to_cnf that turns an OR of ANDs into an AND of ORs. */
module Normalise {
  import opened Common

  // ---------------------------------------------------------------------
  // Mixed-radix digit vectors: digit 0 is the least significant

  /** The vector increment_carrying_indices produces: the first digit that
      can still grow grows, every digit before it wraps to 0; when none can
      grow, all of them wrap. */
  function Inc(d: seq<nat>, l: seq<nat>): (r: seq<nat>)
    requires |d| == |l|
    ensures |r| == |d|
  {
    if |d| == 0 then []
    else if d[0] + 1 < l[0] then [d[0] + 1] + d[1..]
    else [0] + Inc(d[1..], l[1..])
  }

  function Prod(l: seq<nat>): nat
  {
    if |l| == 0 then 1 else l[0] * Prod(l[1..])
  }

  /** The number a digit vector denotes, digit 0 least significant. */
  function Value(d: seq<nat>, l: seq<nat>): nat
    requires |d| == |l|
  {
    if |d| == 0 then 0 else d[0] + l[0] * Value(d[1..], l[1..])
  }

  predicate InBox(d: seq<nat>, l: seq<nat>)
  {
    |d| == |l| && forall i :: 0 <= i < |d| ==> d[i] < l[i]
  }

  function Zeros(n: nat): (r: seq<nat>)
    ensures |r| == n && forall i :: 0 <= i < n ==> r[i] == 0
  {
    seq(n, _ => 0)
  }

  lemma ProdPositive(l: seq<nat>)
    requires Prod(l) > 0
    ensures forall i :: 0 <= i < |l| ==> l[i] > 0
  {
    if |l| > 0 {
      ProdPositive(l[1..]);
      assert forall i :: 1 <= i < |l| ==> l[i] == l[1..][i - 1];
    }
  }

  lemma {:induction false} ProdZero(l: seq<nat>)
    ensures Prod(l) == 0 <==> exists i :: 0 <= i < |l| && l[i] == 0
  {
    if |l| > 0 {
      ProdZero(l[1..]);
      if Prod(l[1..]) == 0 {
        var i :| 0 <= i < |l[1..]| && l[1..][i] == 0;
        assert l[i + 1] == 0;
      }
      if exists i :: 0 <= i < |l| && l[i] == 0 {
        var i :| 0 <= i < |l| && l[i] == 0;
        if i > 0 {
          assert l[1..][i - 1] == 0;
        }
      }
    }
  }

  /** The digit vector of k: the inverse of Value on the box. */
  function Decode(k: nat, l: seq<nat>): (r: seq<nat>)
    requires k < Prod(l)
    ensures |r| == |l|
    decreases |l|
  {
    if |l| == 0 then []
    else
      DivBelow(k, l[0], Prod(l[1..]));
      [k % l[0]] + Decode(k / l[0], l[1..])
  }

  lemma {:induction false} MulMono(m: nat, a: nat, b: nat)
    ensures a <= b ==> m * a <= m * b
  {
    if a < b {
      MulMono(m, a, b - 1);
      assert m * b == m * (b - 1) + m;
    }
  }

  lemma MulStrict(m: nat, a: nat, b: nat)
    ensures a < b ==> m * a + m <= m * b
  {
    MulMono(m, a + 1, b);
    assert m * (a + 1) == m * a + m;
  }

  lemma DivBelow(k: nat, m: nat, p: nat)
    requires k < m * p
    ensures m > 0 && k / m < p
  {
    MulMono(m, p, k / m);
  }

  lemma {:induction false} ValueBelowProd(d: seq<nat>, l: seq<nat>)
    requires InBox(d, l)
    ensures Value(d, l) < Prod(l)
  {
    if |d| > 0 {
      assert InBox(d[1..], l[1..]) by {
        assert forall i :: 0 <= i < |d[1..]| ==> d[1..][i] == d[i + 1] && l[1..][i] == l[i + 1];
      }
      ValueBelowProd(d[1..], l[1..]);
      MulStrict(l[0], Value(d[1..], l[1..]), Prod(l[1..]));
    }
  }

  lemma {:induction false} DecodeValid(k: nat, l: seq<nat>)
    requires k < Prod(l)
    ensures InBox(Decode(k, l), l)
    ensures Value(Decode(k, l), l) == k
    decreases |l|
  {
    if |l| > 0 {
      DivBelow(k, l[0], Prod(l[1..]));
      DecodeValid(k / l[0], l[1..]);
      var d := Decode(k, l);
      assert d[1..] == Decode(k / l[0], l[1..]);
      assert k == k % l[0] + l[0] * (k / l[0]);
    }
  }

  lemma DivModUnique(a: nat, b: nat, m: nat)
    requires a < m
    ensures (a + m * b) % m == a && (a + m * b) / m == b
  {
    var x := a + m * b;
    var q, s := x / m, x % m;
    assert m * q + s == m * b + a;
    MulStrict(m, q, b);
    MulStrict(m, b, q);
  }

  lemma {:induction false} ValueDecode(d: seq<nat>, l: seq<nat>)
    requires InBox(d, l)
    ensures Value(d, l) < Prod(l) && Decode(Value(d, l), l) == d
  {
    ValueBelowProd(d, l);
    if |d| > 0 {
      assert InBox(d[1..], l[1..]) by {
        assert forall i :: 0 <= i < |d[1..]| ==> d[1..][i] == d[i + 1] && l[1..][i] == l[i + 1];
      }
      ValueDecode(d[1..], l[1..]);
      DivModUnique(d[0], Value(d[1..], l[1..]), l[0]);
      assert Decode(Value(d, l), l) == [d[0]] + d[1..];
    }
  }

  /** Incrementing stays in the box and adds one to the value, wrapping to
      zero after the last vector. */
  lemma {:induction false} IncValue(d: seq<nat>, l: seq<nat>)
    requires InBox(d, l)
    ensures InBox(Inc(d, l), l)
    ensures Value(Inc(d, l), l) == if Value(d, l) + 1 == Prod(l) then 0 else Value(d, l) + 1
  {
    if |d| > 0 {
      assert InBox(d[1..], l[1..]) by {
        assert forall i :: 0 <= i < |d[1..]| ==> d[1..][i] == d[i + 1] && l[1..][i] == l[i + 1];
      }
      if d[0] + 1 < l[0] {
        IncValueGrow(d, l);
      } else {
        IncValue(d[1..], l[1..]);
        IncValueCarry(d, l);
      }
    }
  }

  /** The first digit grows: the value goes up by one, still in range. */
  lemma IncValueGrow(d: seq<nat>, l: seq<nat>)
    requires InBox(d, l) && |d| > 0 && d[0] + 1 < l[0]
    ensures InBox(Inc(d, l), l)
    ensures Value(Inc(d, l), l) == Value(d, l) + 1 < Prod(l)
  {
    var r := Inc(d, l);
    assert r[1..] == d[1..];
    ValueBelowProd(r, l);
  }

  /** The first digit wraps: the rest is incremented, carrying the one. */
  lemma IncValueCarry(d: seq<nat>, l: seq<nat>)
    requires InBox(d, l) && |d| > 0 && d[0] + 1 == l[0]
    requires InBox(d[1..], l[1..]) && InBox(Inc(d[1..], l[1..]), l[1..])
    requires Value(Inc(d[1..], l[1..]), l[1..]) ==
      if Value(d[1..], l[1..]) + 1 == Prod(l[1..]) then 0 else Value(d[1..], l[1..]) + 1
    ensures InBox(Inc(d, l), l)
    ensures Value(Inc(d, l), l) == if Value(d, l) + 1 == Prod(l) then 0 else Value(d, l) + 1
  {
    var r := Inc(d, l);
    assert r[1..] == Inc(d[1..], l[1..]);
    var v, w, p := Value(d[1..], l[1..]), Value(r[1..], l[1..]), Prod(l[1..]);
    assert r[0] == 0;
    ValueCons(r, l);
    ValueCons(d, l);
    ProdCons(l);
    ValueBelowProd(d[1..], l[1..]);
    CarryArith(d[0], l[0], v, w, p);
    assert InBox(r, l) by {
      assert forall i :: 1 <= i < |r| ==> r[i] == r[1..][i - 1] && l[i] == l[1..][i - 1];
    }
  }

  /** One step of Value's definition, stated apart so that the unfolding
      stays out of the arithmetic around it. */
  lemma ValueCons(d: seq<nat>, l: seq<nat>)
    requires |d| == |l| > 0
    ensures Value(d, l) == d[0] + l[0] * Value(d[1..], l[1..])
  {
  }

  lemma ProdCons(l: seq<nat>)
    requires |l| > 0
    ensures Prod(l) == l[0] * Prod(l[1..])
  {
  }

  lemma CarryArith(a: nat, m: nat, v: nat, w: nat, p: nat)
    requires a + 1 == m && v < p
    requires w == if v + 1 == p then 0 else v + 1
    ensures m * w == if a + m * v + 1 == m * p then 0 else a + m * v + 1
  {
    assert a + m * v + 1 == m * (v + 1);
    MulStrict(m, v + 1, p);
  }

  /** Stepping the odometer from the vector of k gives the vector of
      k + 1, or all zeros after the last one. */
  lemma IncDecode(k: nat, l: seq<nat>)
    requires k < Prod(l)
    ensures k + 1 < Prod(l) ==> Inc(Decode(k, l), l) == Decode(k + 1, l)
    ensures k + 1 == Prod(l) ==> Inc(Decode(k, l), l) == Zeros(|l|)
  {
    DecodeValid(k, l);
    IncValue(Decode(k, l), l);
    ValueDecode(Inc(Decode(k, l), l), l);
    if k + 1 == Prod(l) {
      ZerosDecode(l);
    }
  }

  lemma ZerosDecode(l: seq<nat>)
    requires Prod(l) > 0
    ensures Decode(0, l) == Zeros(|l|)
  {
    ProdPositive(l);
    assert InBox(Zeros(|l|), l);
    ZerosValue(l);
    ValueDecode(Zeros(|l|), l);
  }

  lemma {:induction false} ZerosValue(l: seq<nat>)
    ensures Value(Zeros(|l|), l) == 0
  {
    if |l| > 0 {
      assert Zeros(|l|)[1..] == Zeros(|l| - 1);
      ZerosValue(l[1..]);
    }
  }

  /** n steps of the odometer from all zeros. */
  function IncN(d: seq<nat>, l: seq<nat>, n: nat): (r: seq<nat>)
    requires |d| == |l|
    ensures |r| == |d|
  {
    if n == 0 then d else Inc(IncN(d, l, n - 1), l)
  }

  /** Starting from zeros with all limits at least 1, the odometer visits
      the vector of every k below the product of the limits, each vector
      of the box exactly once, and is back at zeros after that many steps. */
  lemma {:induction false} OdometerVisitsBox(l: seq<nat>, k: nat)
    requires forall i :: 0 <= i < |l| ==> l[i] >= 1
    requires k <= Prod(l)
    ensures k < Prod(l) ==> IncN(Zeros(|l|), l, k) == Decode(k, l) && InBox(IncN(Zeros(|l|), l, k), l)
    ensures k == Prod(l) ==> IncN(Zeros(|l|), l, k) == Zeros(|l|)
  {
    ProdNonZero(l);
    if k == 0 {
      ZerosDecode(l);
      DecodeValid(0, l);
    } else {
      OdometerVisitsBox(l, k - 1);
      IncDecode(k - 1, l);
      if k < Prod(l) {
        DecodeValid(k, l);
      }
    }
  }

  lemma {:induction false} ProdNonZero(l: seq<nat>)
    requires forall i :: 0 <= i < |l| ==> l[i] >= 1
    ensures Prod(l) >= 1
  {
    if |l| > 0 {
      assert forall i :: 0 <= i < |l[1..]| ==> l[1..][i] == l[i + 1];
      ProdNonZero(l[1..]);
    }
  }

  /** Every vector of the box is visited, and no two steps below the
      product visit the same vector. */
  lemma DecodeBijective(d: seq<nat>, l: seq<nat>, j: nat, k: nat)
    requires j < k < Prod(l)
    ensures InBox(d, l) ==> Value(d, l) < Prod(l) && Decode(Value(d, l), l) == d
    ensures Decode(j, l) != Decode(k, l)
  {
    if InBox(d, l) {
      ValueDecode(d, l);
    }
    DecodeValid(j, l);
    DecodeValid(k, l);
  }

  /** Closed form of Inc when digit i is the first that can grow. */
  lemma {:induction false} IncGrowsAt(d: seq<nat>, l: seq<nat>, i: nat)
    requires |d| == |l| && i < |d|
    requires forall k :: 0 <= k < i ==> d[k] + 1 >= l[k]
    requires d[i] + 1 < l[i]
    ensures Inc(d, l) == Zeros(i) + [d[i] + 1] + d[i + 1..]
  {
    if i > 0 {
      assert forall k :: 0 <= k < i - 1 ==> d[1..][k] == d[k + 1] && l[1..][k] == l[k + 1];
      IncGrowsAt(d[1..], l[1..], i - 1);
      assert d[1..][i - 1 + 1..] == d[i + 1..];
      assert [0] + Zeros(i - 1) == Zeros(i);
    }
  }

  /** Closed form of Inc when no digit can grow. */
  lemma {:induction false} IncWrapsAll(d: seq<nat>, l: seq<nat>)
    requires |d| == |l|
    requires forall k :: 0 <= k < |d| ==> d[k] + 1 >= l[k]
    ensures Inc(d, l) == Zeros(|d|)
  {
    if |d| > 0 {
      assert forall k :: 0 <= k < |d| - 1 ==> d[1..][k] == d[k + 1] && l[1..][k] == l[k + 1];
      IncWrapsAll(d[1..], l[1..]);
      assert [0] + Zeros(|d| - 1) == Zeros(|d|);
    }
  }

  /** increment_carrying_indices: the odometer step, in place. */
  method IncrementCarryingIndices(indices: array<nat>, limits: array<nat>)
    requires indices.Length == limits.Length && indices != limits
    modifies indices
    ensures indices[..] == Inc(old(indices[..]), limits[..])
  {
    ghost var d := indices[..];
    var i := 0;
    while i < indices.Length
      invariant 0 <= i <= indices.Length
      invariant forall k :: 0 <= k < i ==> indices[k] == 0 && d[k] + 1 >= limits[k]
      invariant forall k :: i <= k < indices.Length ==> indices[k] == d[k]
    {
      if indices[i] + 1 < limits[i] {
        indices[i] := indices[i] + 1;
        IncGrowsAt(d, limits[..], i);
        assert indices[..] == Zeros(i) + [d[i] + 1] + d[i + 1..];
        return;
      }
      indices[i] := 0;
      i := i + 1;
    }
    IncWrapsAll(d, limits[..]);
    assert indices[..] == Zeros(indices.Length);
  }

  // ---------------------------------------------------------------------
  // DNF to CNF

  /** The size of every conjunction: the odometer's limits. */
  function Sizes(dnf: OrTerms): (r: seq<nat>)
    ensures |r| == |dnf| && forall i :: 0 <= i < |dnf| ==> r[i] == |dnf[i]|
  {
    seq(|dnf|, i requires 0 <= i < |dnf| => |dnf[i]|)
  }

  /** compute_number_of_cnf_clauses: the product of the conjunction
      sizes; 1 for an empty DNF, 0 exactly when some conjunction is empty. */
  function ComputeNumberOfCnfClauses(dnf: OrTerms): (r: nat)
    ensures |dnf| == 0 ==> r == 1
    ensures r == 0 <==> exists i :: 0 <= i < |dnf| && |dnf[i]| == 0
  {
    ProdZero(Sizes(dnf));
    Prod(Sizes(dnf))
  }

  /** The CNF clause that a choice of one factor per conjunction picks. */
  function Clause(dnf: OrTerms, d: seq<nat>): (c: seq<BooleanFactor>)
    requires InBox(d, Sizes(dnf))
    ensures |c| == |dnf| && forall i :: 0 <= i < |dnf| ==> c[i] == dnf[i][d[i]]
  {
    seq(|dnf|, i requires 0 <= i < |dnf| => dnf[i][d[i]])
  }

  /** What dnf_to_cnf computes: clause k takes, from every conjunction i,
      the factor that digit i of k selects. */
  function CnfOf(dnf: OrTerms): (cnf: seq<seq<BooleanFactor>>)
    ensures |cnf| == ComputeNumberOfCnfClauses(dnf)
  {
    seq(Prod(Sizes(dnf)), k requires 0 <= k < Prod(Sizes(dnf)) => ClauseNumber(dnf, k))
  }

  /** Clause number k of the expansion. */
  function ClauseNumber(dnf: OrTerms, k: nat): (c: seq<BooleanFactor>)
    requires k < Prod(Sizes(dnf))
  {
    DecodeValid(k, Sizes(dnf));
    Clause(dnf, Decode(k, Sizes(dnf)))
  }

  /** The extract lambda: the clause the current indices select. */
  method Extract(dnf: OrTerms, indices: array<nat>) returns (clause: seq<BooleanFactor>)
    requires InBox(indices[..], Sizes(dnf))
    ensures clause == Clause(dnf, indices[..])
  {
    clause := [];
    var i := 0;
    while i < |dnf|
      invariant 0 <= i <= |dnf|
      invariant |clause| == i && forall j :: 0 <= j < i ==> clause[j] == dnf[j][indices[j]]
    {
      clause := clause + [dnf[i][indices[i]]];
      i := i + 1;
    }
  }

  /** dnf_to_cnf: fill the limits, then emit one clause per odometer
      position, stepping the odometer after each. */
  method DnfToCnf(dnf: OrTerms) returns (result: seq<seq<BooleanFactor>>)
    ensures result == CnfOf(dnf)
  {
    var n := |dnf|;
    var indices := new nat[n](_ => 0);
    var limits := FillLimits(dnf);
    var numClauses := ComputeNumberOfCnfClauses(dnf);
    var res := new seq<BooleanFactor>[numClauses](_ => []);
    if numClauses > 0 {
      ZerosDecode(limits[..]);
      assert indices[..] == Zeros(n);
    }
    EmitClauses(dnf, indices, limits, res);
    result := res[..];
  }

  /** The result loop of dnf_to_cnf: slot k receives the clause the
      odometer selects at position k. */
  method EmitClauses(dnf: OrTerms, indices: array<nat>, limits: array<nat>, res: array<seq<BooleanFactor>>)
    requires indices.Length == limits.Length && indices != limits
    requires limits[..] == Sizes(dnf) && res.Length == Prod(limits[..])
    requires res.Length > 0 ==> indices[..] == Decode(0, limits[..])
    modifies res, indices
    ensures res[..] == CnfOf(dnf)
  {
    ghost var l := limits[..];
    ghost var cnf := CnfOf(dnf);
    var k := 0;
    while k < res.Length
      invariant 0 <= k <= res.Length == Prod(l) == |cnf|
      invariant limits[..] == l
      invariant k < res.Length ==> indices[..] == Decode(k, l)
      invariant res[..k] == cnf[..k]
    {
      NextClause(dnf, l, k);
      var clause := Extract(dnf, indices);
      res[k] := clause;
      assert res[..k + 1] == cnf[..k + 1] by {
        assert res[..k + 1] == res[..k] + [clause] && cnf[..k + 1] == cnf[..k] + [cnf[k]];
      }
      IncrementCarryingIndices(indices, limits);
      k := k + 1;
    }
    assert res[..] == res[..k] && cnf[..k] == cnf;
  }

  /** The odometer at position k selects clause number k, and one step
      takes it to position k + 1. */
  lemma NextClause(dnf: OrTerms, l: seq<nat>, k: nat)
    requires l == Sizes(dnf) && k < Prod(l)
    ensures InBox(Decode(k, l), l) && Clause(dnf, Decode(k, l)) == ClauseNumber(dnf, k)
    ensures k + 1 < Prod(l) ==> Inc(Decode(k, l), l) == Decode(k + 1, l)
  {
    DecodeValid(k, l);
    IncDecode(k, l);
  }

  /** The limits lambda: the size of every conjunction. */
  method FillLimits(dnf: OrTerms) returns (limits: array<nat>)
    ensures fresh(limits) && limits[..] == Sizes(dnf)
  {
    limits := new nat[|dnf|](_ => 0);
    var i := 0;
    while i < |dnf|
      invariant 0 <= i <= |dnf|
      invariant forall j :: 0 <= j < i ==> limits[j] == |dnf[j]|
    {
      limits[i] := |dnf[i]|;
      i := i + 1;
    }
  }

  // ---------------------------------------------------------------------
  // Meaning: AND over clauses of OR equals OR over conjunctions of AND

  /** A conjunction under some evaluation of factors: all factors hold. */
  predicate AllHold(p: BooleanFactor -> bool, conj: seq<BooleanFactor>)
  {
    forall j :: 0 <= j < |conj| ==> p(conj[j])
  }

  /** A disjunction of factors: some factor holds; the empty one holds
      (or_construct of nothing is true). */
  predicate AnyHolds(p: BooleanFactor -> bool, clause: seq<BooleanFactor>)
  {
    |clause| == 0 || exists j :: 0 <= j < |clause| && p(clause[j])
  }

  /** A DNF: the empty one holds, otherwise some conjunction holds. */
  predicate DnfHolds(p: BooleanFactor -> bool, dnf: OrTerms)
  {
    |dnf| == 0 || exists i :: 0 <= i < |dnf| && AllHold(p, dnf[i])
  }

  /** A CNF: every clause holds. */
  predicate CnfHolds(p: BooleanFactor -> bool, cnf: seq<seq<BooleanFactor>>)
  {
    forall k :: 0 <= k < |cnf| ==> AnyHolds(p, cnf[k])
  }

  /** For a conjunction that does not hold, a factor that fails. */
  ghost function FailingFactor(p: BooleanFactor -> bool, conj: seq<BooleanFactor>): (j: nat)
    requires !AllHold(p, conj)
    ensures j < |conj| && !p(conj[j])
  {
    var j :| 0 <= j < |conj| && !p(conj[j]); j
  }

  /** The expansion keeps the meaning of the condition, whatever each
      factor evaluates to. */
  lemma CnfOfEquivalent(p: BooleanFactor -> bool, dnf: OrTerms)
    ensures CnfHolds(p, CnfOf(dnf)) == DnfHolds(p, dnf)
  {
    var l := Sizes(dnf);
    var cnf := CnfOf(dnf);
    if DnfHolds(p, dnf) && |dnf| > 0 {
      var i :| 0 <= i < |dnf| && AllHold(p, dnf[i]);
      forall k | 0 <= k < |cnf| ensures AnyHolds(p, cnf[k]) {
        DecodeValid(k, l);
        var d := Decode(k, l);
        assert cnf[k] == Clause(dnf, d);
        assert cnf[k][i] == dnf[i][d[i]];
      }
    } else if !DnfHolds(p, dnf) {
      var d := seq(|dnf|, i requires 0 <= i < |dnf| => FailingFactor(p, dnf[i]));
      assert InBox(d, l);
      ValueDecode(d, l);
      var k := Value(d, l);
      assert cnf[k] == Clause(dnf, d);
      assert !AnyHolds(p, cnf[k]);
    } else {
      assert |cnf| == 1;
    }
  }

  /** dnf_to_cnf keeps the meaning of the condition. */
  lemma DnfToCnfEquivalent(p: BooleanFactor -> bool, dnf: OrTerms)
    ensures CnfHolds(p, CnfOf(dnf)) <==> DnfHolds(p, dnf)
    ensures |CnfOf(dnf)| == ComputeNumberOfCnfClauses(dnf)
    ensures forall k :: 0 <= k < |CnfOf(dnf)| ==> |CnfOf(dnf)[k]| == |dnf|
  {
    CnfOfEquivalent(p, dnf);
  }
}
