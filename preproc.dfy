/** Name resolution before planning (include/parser/preproc.h, lines
    8-115): the two-schema resolve_name, dealias_query and
    resolve_table_name. Both query passes apply one substitution to every
    column reference of the query, in the order select list, GROUP BY keys,
    join condition (both sides), where condition (left side), and stop at
    the first reference the substitution rejects. */
module Preproc {
  import opened Wrappers
  import opened Common
  import opened Schema

  /** The two-schema resolve_name: "0" or "1", the alternative of the
      variant that holds the column's schema, or the exception. */
  function ResolveNameTag(s1: Schema, s2: Schema, column: string): (r: Result<string>)
    ensures r == Ok("0") <==> column in MemberList(s1) && column !in MemberList(s2)
    ensures r == Ok("1") <==> column !in MemberList(s1) && column in MemberList(s2)
    ensures r == Err(AmbiguousColumn) <==> column in MemberList(s1) && column in MemberList(s2)
    ensures r == Err(UnknownColumn) <==> column !in MemberList(s1) && column !in MemberList(s2)
  {
    var i :- ResolveName2(s1, s2, column);
    Ok(if i == 0 then "0" else "1")
  }

  // ---------------------------------------------------------------------
  // The substitution of one column reference

  /** Which substitute lambda is applied: the one of dealias_query, of
      resolve_table_name with one schema, or with two. */
  datatype Mode = Dealias(tns: TableNames) | ResolveOne | ResolveTwo(s1: Schema, s2: Schema)

  /** The new table qualifier of a reference (table, column). */
  function Qualify(mode: Mode, table: string, column: string): (r: Result<string>)
    ensures r.Ok? && r.value != table ==> r.value == "0" || r.value == "1"
    ensures r.Err? ==> (mode.Dealias? && r.error == AmbiguousTableName) ||
                       (mode.ResolveTwo? && (r.error == AmbiguousColumn || r.error == UnknownColumn))
  {
    match mode
    case Dealias(tns) =>
      if table == "" then Ok(table)
      else if tns.second.Some? && table == tns.first.name && table == tns.second.value.name then
        Err(AmbiguousTableName)
      else if tns.first.alias == table || tns.first.name == table then Ok("0")
      else if tns.second.Some? && (tns.second.value.alias == table || tns.second.value.name == table) then Ok("1")
      else Ok(table)
    case ResolveOne =>
      Ok(if column != "" then "0" else table)
    case ResolveTwo(s1, s2) =>
      if table == "" && column != "" then ResolveNameTag(s1, s2, column) else Ok(table)
  }

  /** The substitution on one reference: only its qualifier can change. */
  function Requalify(mode: Mode, x: BasicColumnName): (r: Result<BasicColumnName>)
    ensures r.Ok? <==> Qualify(mode, x.table, x.column).Ok?
    ensures r.Ok? ==> r.value == x.(table := Qualify(mode, x.table, x.column).value)
    ensures r.Err? ==> r.error == Qualify(mode, x.table, x.column).error
  {
    var t :- Qualify(mode, x.table, x.column);
    Ok(x.(table := t))
  }

  /** A select-list or GROUP BY entry as a reference. */
  function ColumnRef(cn: ColumnName): BasicColumnName
  {
    BasicColumnName(cn.table, cn.column)
  }

  function QualifyColumn(mode: Mode, cn: ColumnName): Result<ColumnName>
  {
    var t :- Qualify(mode, cn.table, cn.column);
    Ok(cn.(table := t))
  }

  /** The substitution on a factor: its left column and, in a join
      condition (both), its right column. */
  function QualifyFactor(mode: Mode, both: bool, bf: BooleanFactor): Result<BooleanFactor>
  {
    var lhs :- Requalify(mode, bf.lhs);
    if both && bf.rhs.ColumnRhs? then
      var rhs :- Requalify(mode, bf.rhs.col);
      Ok(bf.(lhs := lhs, rhs := ColumnRhs(rhs)))
    else
      Ok(bf.(lhs := lhs))
  }

  /** Prefix the entries already substituted to the result for the rest. */
  function Prepend<T>(done: seq<T>, rest: Result<seq<T>>): Result<seq<T>>
  {
    match rest
    case Ok(v) => Ok(done + v)
    case Err(e) => Err(e)
  }

  lemma PrependLaws<T>(a: seq<T>, b: seq<T>, r: Result<seq<T>>)
    ensures Prepend([], r) == r
    ensures Prepend(a, Prepend(b, r)) == Prepend(a + b, r)
  {
    if r.Ok? {
      assert [] + r.value == r.value;
      assert a + (b + r.value) == (a + b) + r.value;
    }
  }

  function QualifyColumns(mode: Mode, cns: seq<ColumnName>): Result<seq<ColumnName>>
  {
    if |cns| == 0 then Ok([])
    else
      var c :- QualifyColumn(mode, cns[0]);
      Prepend([c], QualifyColumns(mode, cns[1..]))
  }

  function QualifyConjunction(mode: Mode, both: bool, bat: AndTerms): Result<AndTerms>
  {
    if |bat| == 0 then Ok([])
    else
      var bf :- QualifyFactor(mode, both, bat[0]);
      Prepend([bf], QualifyConjunction(mode, both, bat[1..]))
  }

  function QualifyCondition(mode: Mode, both: bool, bot: OrTerms): Result<OrTerms>
  {
    if |bot| == 0 then Ok([])
    else
      var bat :- QualifyConjunction(mode, both, bot[0]);
      Prepend([bat], QualifyCondition(mode, both, bot[1..]))
  }

  /** The substitution on the whole query, in the source's traversal order. */
  function QualifyQuery(mode: Mode, q: Query): Result<Query>
  {
    var cns :- QualifyColumns(mode, q.cns);
    var keys :- QualifyColumns(mode, q.groupByKeys);
    var join :- QualifyCondition(mode, true, q.joinCondition);
    var where :- QualifyCondition(mode, false, q.whereCondition);
    Ok(q.(cns := cns, groupByKeys := keys, joinCondition := join, whereCondition := where))
  }

  // ---------------------------------------------------------------------
  // The references of a query, and the query with its qualifiers blanked

  function FactorRefs(both: bool, bf: BooleanFactor): seq<BasicColumnName>
  {
    [bf.lhs] + if both && bf.rhs.ColumnRhs? then [bf.rhs.col] else []
  }

  function ColumnRefs(cns: seq<ColumnName>): seq<BasicColumnName>
  {
    if |cns| == 0 then [] else [ColumnRef(cns[0])] + ColumnRefs(cns[1..])
  }

  function ConjunctionRefs(both: bool, bat: AndTerms): seq<BasicColumnName>
  {
    if |bat| == 0 then [] else FactorRefs(both, bat[0]) + ConjunctionRefs(both, bat[1..])
  }

  function ConditionRefs(both: bool, bot: OrTerms): seq<BasicColumnName>
  {
    if |bot| == 0 then [] else ConjunctionRefs(both, bot[0]) + ConditionRefs(both, bot[1..])
  }

  /** Every reference the substitution visits, in the order it visits them. */
  function Refs(q: Query): seq<BasicColumnName>
  {
    ColumnRefs(q.cns) + ColumnRefs(q.groupByKeys) +
    ConditionRefs(true, q.joinCondition) + ConditionRefs(false, q.whereCondition)
  }

  function BlankColumns(cns: seq<ColumnName>): seq<ColumnName>
  {
    seq(|cns|, i requires 0 <= i < |cns| => cns[i].(table := ""))
  }

  function BlankFactor(both: bool, bf: BooleanFactor): BooleanFactor
  {
    var lhs := bf.lhs.(table := "");
    if both && bf.rhs.ColumnRhs? then bf.(lhs := lhs, rhs := ColumnRhs(bf.rhs.col.(table := "")))
    else bf.(lhs := lhs)
  }

  function BlankConjunction(both: bool, bat: AndTerms): AndTerms
  {
    seq(|bat|, j requires 0 <= j < |bat| => BlankFactor(both, bat[j]))
  }

  function BlankCondition(both: bool, bot: OrTerms): OrTerms
  {
    seq(|bot|, i requires 0 <= i < |bot| => BlankConjunction(both, bot[i]))
  }

  /** The query with every visited qualifier erased: what the substitution
      must leave alone. */
  function Blank(q: Query): Query
  {
    q.(cns := BlankColumns(q.cns), groupByKeys := BlankColumns(q.groupByKeys),
       joinCondition := BlankCondition(true, q.joinCondition),
       whereCondition := BlankCondition(false, q.whereCondition))
  }

  /** The substitution on a list of references, first error winning. */
  function RequalifyAll(mode: Mode, xs: seq<BasicColumnName>): Result<seq<BasicColumnName>>
  {
    if |xs| == 0 then Ok([])
    else
      var x :- Requalify(mode, xs[0]);
      Prepend([x], RequalifyAll(mode, xs[1..]))
  }

  /** RequalifyAll visits the references one by one: it fails with the
      error of the first one rejected, and otherwise substitutes each. */
  lemma {:induction false} RequalifyAllMeaning(mode: Mode, xs: seq<BasicColumnName>)
    ensures RequalifyAll(mode, xs).Ok? <==> forall i :: 0 <= i < |xs| ==> Requalify(mode, xs[i]).Ok?
    ensures RequalifyAll(mode, xs).Ok? ==>
      |RequalifyAll(mode, xs).value| == |xs| &&
      forall i :: 0 <= i < |xs| ==> RequalifyAll(mode, xs).value[i] == Requalify(mode, xs[i]).value
    ensures RequalifyAll(mode, xs).Err? ==>
      exists i :: 0 <= i < |xs| && Requalify(mode, xs[i]) == Err(RequalifyAll(mode, xs).error) &&
        forall j :: 0 <= j < i ==> Requalify(mode, xs[j]).Ok?
  {
    if |xs| > 0 {
      RequalifyAllMeaning(mode, xs[1..]);
      assert forall i :: 1 <= i < |xs| ==> xs[i] == xs[1..][i - 1];
      var r := RequalifyAll(mode, xs);
      if r.Err? && Requalify(mode, xs[0]).Ok? {
        var i :| 0 <= i < |xs[1..]| && Requalify(mode, xs[1..][i]) == Err(r.error) &&
          forall j :: 0 <= j < i ==> Requalify(mode, xs[1..][j]).Ok?;
        assert Requalify(mode, xs[i + 1]) == Err(r.error);
      }
    }
  }

  /** Substituting a concatenation: the first part, then the second. */
  lemma {:induction false} RequalifyAllAppend(mode: Mode, a: seq<BasicColumnName>, b: seq<BasicColumnName>)
    ensures RequalifyAll(mode, a + b) ==
      match RequalifyAll(mode, a)
      case Err(e) => Err(e)
      case Ok(x) => Prepend(x, RequalifyAll(mode, b))
  {
    if |a| > 0 {
      assert (a + b)[0] == a[0];
      assert (a + b)[1..] == a[1..] + b;
      RequalifyAllAppend(mode, a[1..], b);
      var x := Requalify(mode, a[0]);
      var y := RequalifyAll(mode, a[1..]);
      if x.Ok? && y.Ok? {
        PrependLaws([x.value], y.value, RequalifyAll(mode, b));
      }
    } else {
      assert a + b == b;
      PrependLaws([], [], RequalifyAll(mode, b));
    }
  }

  lemma {:induction false} ColumnsMirrorRefs(mode: Mode, cns: seq<ColumnName>)
    ensures QualifyColumns(mode, cns).Err? <==> RequalifyAll(mode, ColumnRefs(cns)).Err?
    ensures QualifyColumns(mode, cns).Err? ==> QualifyColumns(mode, cns).error == RequalifyAll(mode, ColumnRefs(cns)).error
    ensures QualifyColumns(mode, cns).Ok? ==>
      ColumnRefs(QualifyColumns(mode, cns).value) == RequalifyAll(mode, ColumnRefs(cns)).value
  {
    if |cns| > 0 {
      ColumnsMirrorRefs(mode, cns[1..]);
      var r := QualifyColumns(mode, cns);
      if r.Ok? {
        assert r.value[1..] == QualifyColumns(mode, cns[1..]).value;
      }
    }
  }

  lemma {:induction false} ColumnsKeepBlank(mode: Mode, cns: seq<ColumnName>)
    requires QualifyColumns(mode, cns).Ok?
    ensures BlankColumns(QualifyColumns(mode, cns).value) == BlankColumns(cns)
  {
    ColumnsKeepColumn(mode, cns);
  }

  lemma {:induction false} ColumnsKeepColumn(mode: Mode, cns: seq<ColumnName>)
    requires QualifyColumns(mode, cns).Ok?
    ensures |QualifyColumns(mode, cns).value| == |cns| &&
            forall i :: 0 <= i < |cns| ==> QualifyColumns(mode, cns).value[i].(table := "") == cns[i].(table := "")
  {
    if |cns| > 0 {
      ColumnsKeepColumn(mode, cns[1..]);
      var v := QualifyColumns(mode, cns).value;
      assert v == [v[0]] + QualifyColumns(mode, cns[1..]).value;
    }
  }

  lemma RequalifyOne(mode: Mode, x: BasicColumnName)
    ensures RequalifyAll(mode, [x]) == match Requalify(mode, x) case Ok(y) => Ok([y]) case Err(e) => Err(e)
  {
    assert [x][1..] == [];
    if Requalify(mode, x).Ok? {
      assert [Requalify(mode, x).value] + [] == [Requalify(mode, x).value];
    }
  }

  lemma FactorMirrorsRefs(mode: Mode, both: bool, bf: BooleanFactor)
    ensures QualifyFactor(mode, both, bf).Err? <==> RequalifyAll(mode, FactorRefs(both, bf)).Err?
    ensures QualifyFactor(mode, both, bf).Err? ==> QualifyFactor(mode, both, bf).error == RequalifyAll(mode, FactorRefs(both, bf)).error
    ensures QualifyFactor(mode, both, bf).Ok? ==>
      FactorRefs(both, QualifyFactor(mode, both, bf).value) == RequalifyAll(mode, FactorRefs(both, bf)).value &&
      BlankFactor(both, QualifyFactor(mode, both, bf).value) == BlankFactor(both, bf)
  {
    var xs := FactorRefs(both, bf);
    RequalifyOne(mode, bf.lhs);
    if both && bf.rhs.ColumnRhs? {
      assert xs == [bf.lhs] + [bf.rhs.col];
      RequalifyOne(mode, bf.rhs.col);
      RequalifyAllAppend(mode, [bf.lhs], [bf.rhs.col]);
    } else {
      assert xs == [bf.lhs];
    }
  }

  lemma {:induction false} ConjunctionMirrorsRefs(mode: Mode, both: bool, bat: AndTerms)
    ensures QualifyConjunction(mode, both, bat).Err? <==> RequalifyAll(mode, ConjunctionRefs(both, bat)).Err?
    ensures QualifyConjunction(mode, both, bat).Err? ==>
      QualifyConjunction(mode, both, bat).error == RequalifyAll(mode, ConjunctionRefs(both, bat)).error
    ensures QualifyConjunction(mode, both, bat).Ok? ==>
      ConjunctionRefs(both, QualifyConjunction(mode, both, bat).value) ==
      RequalifyAll(mode, ConjunctionRefs(both, bat)).value
  {
    if |bat| > 0 {
      ConjunctionMirrorsRefs(mode, both, bat[1..]);
      FactorMirrorsRefs(mode, both, bat[0]);
      RequalifyAllAppend(mode, FactorRefs(both, bat[0]), ConjunctionRefs(both, bat[1..]));
      var r := QualifyConjunction(mode, both, bat);
      if r.Ok? {
        assert r.value[1..] == QualifyConjunction(mode, both, bat[1..]).value;
      }
    }
  }

  lemma FactorKeepsBlank(mode: Mode, both: bool, bf: BooleanFactor)
    requires QualifyFactor(mode, both, bf).Ok?
    ensures BlankFactor(both, QualifyFactor(mode, both, bf).value) == BlankFactor(both, bf)
  {
  }

  lemma {:induction false} ConjunctionKeepsBlank(mode: Mode, both: bool, bat: AndTerms)
    requires QualifyConjunction(mode, both, bat).Ok?
    ensures BlankConjunction(both, QualifyConjunction(mode, both, bat).value) == BlankConjunction(both, bat)
  {
    if |bat| > 0 {
      ConjunctionKeepsBlank(mode, both, bat[1..]);
      FactorKeepsBlank(mode, both, bat[0]);
      var v := QualifyConjunction(mode, both, bat).value;
      assert v[1..] == QualifyConjunction(mode, both, bat[1..]).value;
      assert forall j :: 1 <= j < |v| ==>
        BlankConjunction(both, v)[j] == BlankConjunction(both, v[1..])[j - 1] &&
        BlankConjunction(both, bat)[j] == BlankConjunction(both, bat[1..])[j - 1];
    }
  }

  lemma {:induction false} ConditionMirrorsRefs(mode: Mode, both: bool, bot: OrTerms)
    ensures QualifyCondition(mode, both, bot).Err? <==> RequalifyAll(mode, ConditionRefs(both, bot)).Err?
    ensures QualifyCondition(mode, both, bot).Err? ==>
      QualifyCondition(mode, both, bot).error == RequalifyAll(mode, ConditionRefs(both, bot)).error
    ensures QualifyCondition(mode, both, bot).Ok? ==>
      ConditionRefs(both, QualifyCondition(mode, both, bot).value) == RequalifyAll(mode, ConditionRefs(both, bot)).value
  {
    if |bot| > 0 {
      ConditionMirrorsRefs(mode, both, bot[1..]);
      ConjunctionMirrorsRefs(mode, both, bot[0]);
      RequalifyAllAppend(mode, ConjunctionRefs(both, bot[0]), ConditionRefs(both, bot[1..]));
      var r := QualifyCondition(mode, both, bot);
      if r.Ok? {
        assert r.value[1..] == QualifyCondition(mode, both, bot[1..]).value;
      }
    }
  }

  lemma {:induction false} ConditionKeepsBlank(mode: Mode, both: bool, bot: OrTerms)
    requires QualifyCondition(mode, both, bot).Ok?
    ensures BlankCondition(both, QualifyCondition(mode, both, bot).value) == BlankCondition(both, bot)
  {
    if |bot| > 0 {
      ConditionKeepsBlank(mode, both, bot[1..]);
      ConjunctionKeepsBlank(mode, both, bot[0]);
      var v := QualifyCondition(mode, both, bot).value;
      assert v[1..] == QualifyCondition(mode, both, bot[1..]).value;
      assert forall i :: 1 <= i < |v| ==>
        BlankCondition(both, v)[i] == BlankCondition(both, v[1..])[i - 1] &&
        BlankCondition(both, bot)[i] == BlankCondition(both, bot[1..])[i - 1];
    }
  }

  /** The query pass is the substitution applied to the list of the
      query's references, in order: it fails exactly when some reference
      is rejected, with the error of the first one, and otherwise it
      changes nothing but the qualifiers, each as Qualify says. */
  lemma QualifyQueryMeaning(mode: Mode, q: Query)
    ensures QualifyQuery(mode, q).Err? <==> RequalifyAll(mode, Refs(q)).Err?
    ensures QualifyQuery(mode, q).Err? ==> QualifyQuery(mode, q).error == RequalifyAll(mode, Refs(q)).error
    ensures QualifyQuery(mode, q).Ok? ==>
      Refs(QualifyQuery(mode, q).value) == RequalifyAll(mode, Refs(q)).value &&
      Blank(QualifyQuery(mode, q).value) == Blank(q)
  {
    ColumnsMirrorRefs(mode, q.cns);
    ColumnsMirrorRefs(mode, q.groupByKeys);
    ConditionMirrorsRefs(mode, true, q.joinCondition);
    ConditionMirrorsRefs(mode, false, q.whereCondition);
    if QualifyColumns(mode, q.cns).Ok? {
      ColumnsKeepBlank(mode, q.cns);
    }
    if QualifyColumns(mode, q.groupByKeys).Ok? {
      ColumnsKeepBlank(mode, q.groupByKeys);
    }
    if QualifyCondition(mode, true, q.joinCondition).Ok? {
      ConditionKeepsBlank(mode, true, q.joinCondition);
    }
    if QualifyCondition(mode, false, q.whereCondition).Ok? {
      ConditionKeepsBlank(mode, false, q.whereCondition);
    }
    var a, b, c, d := ColumnRefs(q.cns), ColumnRefs(q.groupByKeys),
                      ConditionRefs(true, q.joinCondition), ConditionRefs(false, q.whereCondition);
    RequalifyAllAppend(mode, a + b + c, d);
    RequalifyAllAppend(mode, a + b, c);
    RequalifyAllAppend(mode, a, b);
  }

  // ---------------------------------------------------------------------
  // The loops that apply the substitution

  /** std::for_each(cns, substitute). */
  method SubstituteColumns(mode: Mode, cns: seq<ColumnName>) returns (r: Result<seq<ColumnName>>)
    ensures r == QualifyColumns(mode, cns)
  {
    var done := [];
    PrependLaws(done, done, QualifyColumns(mode, cns));
    var i := 0;
    while i < |cns|
      invariant 0 <= i <= |cns|
      invariant QualifyColumns(mode, cns) == Prepend(done, QualifyColumns(mode, cns[i..]))
    {
      assert cns[i..][1..] == cns[i + 1..];
      var c := QualifyColumn(mode, cns[i]);
      if c.Err? {
        return Err(c.error);
      }
      PrependLaws(done, [c.value], QualifyColumns(mode, cns[i + 1..]));
      done := done + [c.value];
      i := i + 1;
    }
    assert done + [] == done;
    return Ok(done);
  }

  /** The inner loop: substitute in every factor of one conjunction. */
  method SubstituteConjunction(mode: Mode, both: bool, bat: AndTerms) returns (r: Result<AndTerms>)
    ensures r == QualifyConjunction(mode, both, bat)
  {
    var done := [];
    PrependLaws(done, done, QualifyConjunction(mode, both, bat));
    var j := 0;
    while j < |bat|
      invariant 0 <= j <= |bat|
      invariant QualifyConjunction(mode, both, bat) == Prepend(done, QualifyConjunction(mode, both, bat[j..]))
    {
      assert bat[j..][1..] == bat[j + 1..];
      var bf := QualifyFactor(mode, both, bat[j]);
      if bf.Err? {
        return Err(bf.error);
      }
      PrependLaws(done, [bf.value], QualifyConjunction(mode, both, bat[j + 1..]));
      done := done + [bf.value];
      j := j + 1;
    }
    assert done + [] == done;
    return Ok(done);
  }

  /** The outer loop over the conjunctions of a condition. */
  method SubstituteCondition(mode: Mode, both: bool, bot: OrTerms) returns (r: Result<OrTerms>)
    ensures r == QualifyCondition(mode, both, bot)
  {
    var done := [];
    PrependLaws(done, done, QualifyCondition(mode, both, bot));
    var i := 0;
    while i < |bot|
      invariant 0 <= i <= |bot|
      invariant QualifyCondition(mode, both, bot) == Prepend(done, QualifyCondition(mode, both, bot[i..]))
    {
      assert bot[i..][1..] == bot[i + 1..];
      var bat := SubstituteConjunction(mode, both, bot[i]);
      if bat.Err? {
        return Err(bat.error);
      }
      PrependLaws(done, [bat.value], QualifyCondition(mode, both, bot[i + 1..]));
      done := done + [bat.value];
      i := i + 1;
    }
    assert done + [] == done;
    return Ok(done);
  }

  method SubstituteQuery(mode: Mode, q: Query) returns (r: Result<Query>)
    ensures r == QualifyQuery(mode, q)
  {
    var cns :- SubstituteColumns(mode, q.cns);
    var keys :- SubstituteColumns(mode, q.groupByKeys);
    var join :- SubstituteCondition(mode, true, q.joinCondition);
    var where :- SubstituteCondition(mode, false, q.whereCondition);
    return Ok(q.(cns := cns, groupByKeys := keys, joinCondition := join, whereCondition := where));
  }

  // ---------------------------------------------------------------------
  // dealias_query

  /** A qualifier that denotes the table: its name or its non-empty alias. */
  predicate Denotes(tn: TableName, t: string)
  {
    t != "" && (t == tn.name || t == tn.alias)
  }

  /** The shadowing check, as written: it runs only when the first table
      has an alias and there is a second table. */
  predicate Shadowing(tns: TableNames)
  {
    tns.first.alias != "" && tns.second.Some? &&
    (tns.first.alias == tns.second.value.alias || tns.first.alias == tns.second.value.name ||
     tns.first.name == tns.second.value.alias)
  }

  function Dealiased(q: Query): Result<Query>
  {
    if Shadowing(q.tns) then Err(AmbiguousAlias) else QualifyQuery(Dealias(q.tns), q)
  }

  method DealiasQuery(q: Query) returns (r: Result<Query>)
    ensures r == Dealiased(q)
  {
    if Shadowing(q.tns) {
      return Err(AmbiguousAlias);
    }
    r := SubstituteQuery(Dealias(q.tns), q);
  }

  /** What dealiasing does to one qualifier: an unqualified reference stays
      unqualified; one that denotes the first table becomes "0"; one that
      denotes only the second becomes "1"; any other is kept; and it fails
      exactly when the qualifier is the name shared by both tables. */
  lemma DealiasQualifier(tns: TableNames, table: string, column: string)
    ensures table == "" ==> Qualify(Dealias(tns), table, column) == Ok("")
    ensures Qualify(Dealias(tns), table, column).Err? <==>
      tns.second.Some? && table != "" && table == tns.first.name && table == tns.second.value.name
    ensures Qualify(Dealias(tns), table, column).Ok? && Denotes(tns.first, table) ==>
      Qualify(Dealias(tns), table, column).value == "0"
    ensures !Denotes(tns.first, table) && tns.second.Some? && Denotes(tns.second.value, table) ==>
      Qualify(Dealias(tns), table, column) == Ok("1")
    ensures !Denotes(tns.first, table) && !(tns.second.Some? && Denotes(tns.second.value, table)) ==>
      Qualify(Dealias(tns), table, column) == Ok(table)
  {
  }

  /** Some visited reference is qualified by t. */
  predicate Mentions(q: Query, t: string)
  {
    exists i :: 0 <= i < |Refs(q)| && Refs(q)[i].table == t
  }

  /** dealias_query fails exactly when the aliases shadow each other or a
      reference names a table by the name both tables share; with one
      table it fails only for shadowing, which then cannot happen. */
  lemma DealiasErrors(q: Query)
    ensures Dealiased(q).Err? <==>
      Shadowing(q.tns) ||
      (q.tns.second.Some? && q.tns.first.name == q.tns.second.value.name && q.tns.first.name != "" &&
       Mentions(q, q.tns.first.name))
    ensures q.tns.second.None? ==> Dealiased(q).Ok?
  {
    var mode := Dealias(q.tns);
    QualifyQueryMeaning(mode, q);
    RequalifyAllMeaning(mode, Refs(q));
    var xs := Refs(q);
    if q.tns.second.Some? && q.tns.first.name == q.tns.second.value.name && q.tns.first.name != "" &&
       Mentions(q, q.tns.first.name) {
      var i :| 0 <= i < |xs| && xs[i].table == q.tns.first.name;
      assert Requalify(mode, xs[i]).Err?;
    }
  }

  /** After dealiasing, every reference that denoted the first table is
      qualified "0", one that denoted only the second "1", and nothing but
      qualifiers changed. */
  lemma DealiasResult(q: Query)
    requires Dealiased(q).Ok?
    ensures Blank(Dealiased(q).value) == Blank(q) && Dealiased(q).value.tns == q.tns
    ensures |Refs(Dealiased(q).value)| == |Refs(q)|
    ensures forall i :: 0 <= i < |Refs(q)| && Denotes(q.tns.first, Refs(q)[i].table) ==>
      Refs(Dealiased(q).value)[i] == Refs(q)[i].(table := "0")
    ensures forall i :: (0 <= i < |Refs(q)| && !Denotes(q.tns.first, Refs(q)[i].table) &&
      q.tns.second.Some? && Denotes(q.tns.second.value, Refs(q)[i].table)) ==>
      Refs(Dealiased(q).value)[i] == Refs(q)[i].(table := "1")
  {
    QualifyQueryMeaning(Dealias(q.tns), q);
    RequalifyAllMeaning(Dealias(q.tns), Refs(q));
  }

  /** FROM Point, Vec AS Point passes the shadowing check, although the
      qualifier Point then denotes both tables; it is read as the first. */
  lemma ShadowingSkippedWithoutFirstAlias()
    ensures var tns := TableNames(TableName("Point", ""), Some(TableName("Vec", "Point")));
      !Shadowing(tns) && Denotes(tns.first, "Point") && Denotes(tns.second.value, "Point") &&
      Qualify(Dealias(tns), "Point", "x") == Ok("0")
  {
  }

  // ---------------------------------------------------------------------
  // resolve_table_name

  /** The substitution resolve_table_name applies: S2 = void or not. */
  function ResolveMode(s1: Schema, s2: Option<Schema>): Mode
  {
    if s2.None? then ResolveOne else ResolveTwo(s1, s2.value)
  }

  /** resolve_table_name: substitute, then replace the table names by the
      schema names, checking that SQL and template agree on the count. */
  function Resolved(s1: Schema, s2: Option<Schema>, q: Query): Result<Query>
  {
    var r :- QualifyQuery(ResolveMode(s1, s2), q);
    var first := q.tns.first.(name := s1.name);
    if q.tns.second.Some? then
      if s2.None? then Err(TableCountMismatch)
      else Ok(r.(tns := TableNames(first, Some(q.tns.second.value.(name := s2.value.name)))))
    else if s2.Some? then Err(TableCountMismatch)
    else Ok(r.(tns := TableNames(first, None)))
  }

  method ResolveTableName(s1: Schema, s2: Option<Schema>, q: Query) returns (r: Result<Query>)
    ensures r == Resolved(s1, s2, q)
  {
    var query :- SubstituteQuery(ResolveMode(s1, s2), q);
    var first := q.tns.first.(name := s1.name);
    if q.tns.second.Some? {
      if s2.None? {
        return Err(TableCountMismatch);
      }
      return Ok(query.(tns := TableNames(first, Some(q.tns.second.value.(name := s2.value.name)))));
    } else if s2.Some? {
      return Err(TableCountMismatch);
    }
    return Ok(query.(tns := TableNames(first, None)));
  }

  /** With one schema, resolution never fails on a one-table query: every
      reference with a column is qualified "0", COUNT(*) keeps its empty
      qualifier, and the table takes the schema's name, keeping its alias. */
  lemma ResolveOneTable(s1: Schema, q: Query)
    requires q.tns.second.None?
    ensures Resolved(s1, None, q).Ok?
    ensures var r := Resolved(s1, None, q).value;
      Blank(r) == Blank(q).(tns := r.tns) &&
      Tables(r.tns) == [q.tns.first.(name := s1.name)] &&
      |Refs(r)| == |Refs(q)| &&
      forall i :: 0 <= i < |Refs(q)| ==>
        Refs(r)[i].column == Refs(q)[i].column &&
        Refs(r)[i].table == if Refs(q)[i].column != "" then "0" else Refs(q)[i].table
  {
    QualifyQueryMeaning(ResolveOne, q);
    RequalifyAllMeaning(ResolveOne, Refs(q));
  }

  /** With two schemas, resolution succeeds exactly when the query has two
      tables and every unqualified reference names a column of exactly one
      schema; then such a reference is qualified "0" or "1" after the
      schema that has it, and every other reference is kept. */
  lemma ResolveTwoTables(s1: Schema, s2: Schema, q: Query)
    ensures Resolved(s1, Some(s2), q).Ok? <==>
      q.tns.second.Some? &&
      forall i :: 0 <= i < |Refs(q)| && Refs(q)[i].table == "" && Refs(q)[i].column != "" ==>
        (Refs(q)[i].column in MemberList(s1) <==> Refs(q)[i].column !in MemberList(s2))
    ensures Resolved(s1, Some(s2), q).Ok? ==>
      var r := Resolved(s1, Some(s2), q).value;
      Blank(r) == Blank(q).(tns := r.tns) &&
      Tables(r.tns) == [q.tns.first.(name := s1.name), q.tns.second.value.(name := s2.name)] &&
      |Refs(r)| == |Refs(q)| &&
      forall i :: 0 <= i < |Refs(q)| ==>
        var x := Refs(q)[i];
        Refs(r)[i].column == x.column &&
        Refs(r)[i].table ==
          if x.table != "" || x.column == "" then x.table
          else if x.column in MemberList(s1) then "0" else "1"
  {
    var mode := ResolveTwo(s1, s2);
    QualifyQueryMeaning(mode, q);
    RequalifyAllMeaning(mode, Refs(q));
    var xs := Refs(q);
    assert forall i :: 0 <= i < |xs| ==>
      (Requalify(mode, xs[i]).Ok? <==>
        !(xs[i].table == "" && xs[i].column != "") ||
        (xs[i].column in MemberList(s1) <==> xs[i].column !in MemberList(s2)));
  }

  /** When SQL and template disagree on the number of tables, resolution
      fails: with the substitution's error if a reference is rejected
      first, with the count error otherwise. */
  lemma ResolveCountMismatch(s1: Schema, s2: Option<Schema>, q: Query)
    requires q.tns.second.Some? != s2.Some?
    ensures Resolved(s1, s2, q).Err?
    ensures QualifyQuery(ResolveMode(s1, s2), q).Ok? ==> Resolved(s1, s2, q) == Err(TableCountMismatch)
  {
  }
}
