/** The top-level productions (include/parser/parser.h, query_rules): the
    four query shapes without GROUP BY and the optional GROUP BY tail.
    Each builds the five-field Query from its recognised parts. */
module QueryRules {
  import opened Wrappers
  import opened Common

  /** SELECT cns FROM t1, t2 ON join WHERE where. */
  function SelectOnWhere(cns: seq<ColumnName>, tn1: TableName, tn2: TableName, join: OrTerms, where: OrTerms): (q: Query)
    ensures q.cns == cns && Tables(q.tns) == [tn1, tn2]
    ensures q.joinCondition == join && q.whereCondition == where && q.groupByKeys == []
  {
    Query(cns, TableNames(tn1, Some(tn2)), join, where, [])
  }

  /** SELECT cns FROM t1, t2 ON join: no where condition. */
  function SelectOn(cns: seq<ColumnName>, tn1: TableName, tn2: TableName, join: OrTerms): (q: Query)
    ensures q.cns == cns && Tables(q.tns) == [tn1, tn2]
    ensures q.joinCondition == join && q.whereCondition == [] && q.groupByKeys == []
  {
    Query(cns, TableNames(tn1, Some(tn2)), join, [], [])
  }

  /** SELECT cns FROM tables WHERE where: no join condition. */
  function SelectWhere(cns: seq<ColumnName>, tns: TableNames, where: OrTerms): (q: Query)
    ensures q.cns == cns && q.tns == tns
    ensures q.joinCondition == [] && q.whereCondition == where && q.groupByKeys == []
  {
    Query(cns, tns, [], where, [])
  }

  /** SELECT cns FROM tables: no condition at all. */
  function SelectFrom(cns: seq<ColumnName>, tns: TableNames): (q: Query)
    ensures q.cns == cns && q.tns == tns
    ensures q.joinCondition == [] && q.whereCondition == [] && q.groupByKeys == []
  {
    Query(cns, tns, [], [], [])
  }

  /** query(query_without_group_by GROUP BY cns): only the keys change. */
  function WithGroupBy(q: Query, keys: seq<ColumnName>): (r: Query)
    ensures r.groupByKeys == keys && r.(groupByKeys := q.groupByKeys) == q
  {
    q.(groupByKeys := keys)
  }

  /** The shorter shapes are the longest one with the missing parts empty,
      and a GROUP BY tail on any of them touches nothing but the keys. */
  lemma ShapesAgree(cns: seq<ColumnName>, tn1: TableName, tn2: TableName, join: OrTerms,
                    where: OrTerms, tns: TableNames, keys: seq<ColumnName>)
    ensures SelectOn(cns, tn1, tn2, join) == SelectOnWhere(cns, tn1, tn2, join, [])
    ensures SelectFrom(cns, tns) == SelectWhere(cns, tns, [])
    ensures SelectOn(cns, tn1, tn2, []) == SelectWhere(cns, TableNames(tn1, Some(tn2)), [])
    ensures WithGroupBy(SelectWhere(cns, tns, where), keys).whereCondition == where
    ensures WithGroupBy(WithGroupBy(SelectFrom(cns, tns), keys), []) == SelectFrom(cns, tns)
  {
  }
}
