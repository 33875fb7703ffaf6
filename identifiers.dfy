/** Semantic actions of the identifier productions
    (include/parser/identifiers.h): string literals, column references,
    aggregates and COUNT(*), aliases, select lists, table names and the
    FROM list. Each action maps already-recognised pieces to AST values. */
module Identifiers {
  import opened Wrappers
  import opened Common

  predicate IsLetter(c: char) { 'a' <= c <= 'z' || 'A' <= c <= 'Z' }

  /** sql_identifier, `[a-zA-Z][a-zA-Z0-9_]*`. */
  predicate IsIdentifier(s: string)
  {
    |s| > 0 && IsLetter(s[0]) &&
    forall i :: 1 <= i < |s| ==> IsLetter(s[i]) || '0' <= s[i] <= '9' || s[i] == '_'
  }

  /** The two literal tokens, `"[^"]*"` and `'[^']*'`: the quote q, then
      no q, then q. */
  predicate IsQuotedToken(tok: string, q: char)
  {
    |tok| >= 2 && tok[0] == q && tok[|tok| - 1] == q &&
    forall i :: 1 <= i < |tok| - 1 ==> tok[i] != q
  }

  /** string_literal: the token without its first and last characters. */
  function StringLiteral(tok: string): (r: string)
    requires |tok| >= 2
    ensures |r| == |tok| - 2
    ensures [tok[0]] + r + [tok[|tok| - 1]] == tok
  {
    tok[1..|tok| - 1]
  }

  /** Unquoting undoes quoting, and the value of a quoted token never
      contains its quote character. */
  lemma StringLiteralRoundTrip(q: char, s: string)
    ensures StringLiteral([q] + s + [q]) == s
    ensures IsQuotedToken([q] + s + [q], q) <==> q !in s
  {
    var tok := [q] + s + [q];
    assert tok[1..|tok| - 1] == s;
    if q in s {
      var i :| 0 <= i < |s| && s[i] == q;
      assert tok[i + 1] == q;
    }
  }

  /** col_name_no_alias_no_agg(single_entity_reference): a bare column. */
  function BareColumn(cn: string): (r: ColumnName)
    ensures r.table == "" && r.column == cn && r.alias == "" && r.agg == NONE
  {
    ColumnName("", cn, "", NONE)
  }

  /** col_name_no_alias_no_agg(tn '.' cn): a qualified column. */
  function QualifiedColumn(tn: string, cn: string): (r: ColumnName)
    ensures r.table == tn && r.column == cn && r.alias == "" && r.agg == NONE
  {
    ColumnName(tn, cn, "", NONE)
  }

  /** col_name_no_alias(agg_kws '(' col ')'): only the aggregate is set. */
  function Aggregated(agg: AggOp, cname: ColumnName): (r: ColumnName)
    ensures r.agg == agg && r.(agg := cname.agg) == cname
  {
    cname.(agg := agg)
  }

  /** col_name_no_alias(count_kw '(' '*' ')'): a default ColumnName whose
      aggregate is COUNT. */
  function CountStar(): (r: ColumnName)
    ensures r.table == "" && r.column == "" && r.alias == "" && r.agg == COUNT
  {
    ColumnName("", "", "", COUNT)
  }

  /** col_name(col [AS] alias): both forms set only the alias. */
  function Aliased(cname: ColumnName, alias: string): (r: ColumnName)
    ensures r.alias == alias && r.(alias := cname.alias) == cname
  {
    cname.(alias := alias)
  }

  /** col_name_list('*'): the empty list, which selects every column. */
  function StarList(): (r: seq<ColumnName>)
    ensures |r| == 0
  {
    []
  }

  /** col_name_list(col): a one-element list. */
  function SingleColumn(cname: ColumnName): (r: seq<ColumnName>)
    ensures |r| == 1 && r[0] == cname
  {
    [cname]
  }

  /** col_name_list(list ',' col): push_back onto a list of capacity
      MaxNCols. */
  function AppendColumn(cns: seq<ColumnName>, cname: ColumnName): (r: seq<ColumnName>)
    requires |cns| < MaxNCols
    ensures |r| == |cns| + 1 <= MaxNCols && r[..|cns|] == cns && r[|cns|] == cname
  {
    cns + [cname]
  }

  /** A select list built from its first column by appending the others
      holds them in source order. */
  function BuildColumnList(cols: seq<ColumnName>): (r: seq<ColumnName>)
    requires 1 <= |cols| <= MaxNCols
    ensures r == cols
  {
    if |cols| == 1 then SingleColumn(cols[0])
    else AppendColumn(BuildColumnList(cols[..|cols| - 1]), cols[|cols| - 1])
  }

  /** tab_name_no_alias: a table with no alias. */
  function TableNoAlias(tn: string): (r: TableName)
    ensures r.name == tn && r.alias == ""
  {
    TableName(tn, "")
  }

  /** tab_name(name [AS] alias): the alias is the second piece's name. */
  function TableAliased(name: TableName, aliasTn: TableName): (r: TableName)
    ensures r.name == name.name && r.alias == aliasTn.name
  {
    name.(alias := aliasTn.name)
  }

  /** tab_name_list(tab_name): a FROM list of one table. */
  function SingleTable(tn: TableName): (r: TableNames)
    ensures Tables(r) == [tn]
  {
    TableNames(tn, None)
  }

  /** tab_name_list(list ',' tab_name): the table goes after the ones
      already listed; at most two tables fit. */
  function AppendTable(tns: TableNames, tn: TableName): (r: TableNames)
    requires |Tables(tns)| < MaxTables
    ensures Tables(r) == Tables(tns) + [tn]
  {
    TableNames(tns.first, Some(tn))
  }
}
