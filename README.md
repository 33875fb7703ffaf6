# ctsql core, modelled in Dafny

ctsql is a compile-time SQL engine in C++. A query string is parsed at
compile time into a `query` value: the selected column names, one or two
table names, an optional `ON` join condition, an optional `WHERE` condition
and optional `GROUP BY` keys. Conditions are kept in disjunctive normal form,
as a list of AND-clauses of boolean factors. A preprocessing pass replaces
table aliases and table names by the tags `"0"` and `"1"`. The query planner
then

- converts the `WHERE` condition to conjunctive normal form;
- sifts the CNF clauses into those that touch only the first table, those
  that touch only the second, and the mixed rest;
- pushes the one-table clauses down to the scan of their table as
  selectors;
- joins the two tables, either with a hash join on the EQ factors of a
  single-clause `ON` condition or with a nested loop over a DNF selector;
- projects each row onto the selected columns and, when an aggregate is
  present, reduces the rows, globally or per `GROUP BY` key.

This project models that pipeline on values as far as compile-time
metaprogramming allows:

- Token patterns are strings.
- Parser rules are constructor functions.
- Conditions are sequences of sequences.
- A row is a sequence of `Value`s.
- Selectors form a small expression tree with an evaluation function.
- Join and reduction loops become Dafny methods with loop invariants,
  proved against specification functions.

One module per source file:

| module | file | source |
|---|---|---|
| `Wrappers` | wrappers.dfy | `Result`/`Option` and the error conditions the source raises |
| `KeywordGen` | keyword_gen.dfy | keyword_gen.py |
| `Utils` | utils.dfy | include/utils.h |
| `Numeral` | numeral.dfy | include/numeral.h |
| `Common` | common.dfy | include/parser/common.h |
| `Keywords` | keywords.dfy | include/parser/keywords.h |
| `Identifiers` | identifiers.dfy | include/parser/identifiers.h |
| `Logical` | logical.dfy | include/parser/logical.h |
| `QueryRules` | query_rules.dfy | include/parser/parser.h |
| `ToyParser` | array_like.dfy | include/parser.h |
| `Schema` | schema.dfy | include/schema.h |
| `Preproc` | preproc.dfy | include/parser/preproc.h, dealias and resolve |
| `Normalise` | normalise.dfy | include/parser/preproc.h, DNF to CNF |
| `Selector` | selector.dfy | include/operator/selector.h |
| `JoinIndices` | join.dfy | include/operator/join.h |
| `Projector` | projector.dfy | include/operator/projector.h |
| `EqJoin` | eq_join.dfy | include/planner.h, join operators |
| `ReduceGroup` | reduce_group.dfy | include/planner.h, reduce operators |
| `QueryPlanner` | planner.dfy | include/planner.h, query_planner |

The model's semantics:

- **Values.** `Value` is `Int | Real | Str`.
- **Comparisons.** `Common.Less` is a strict total order: numbers compare
  numerically, strings lexicographically, and numbers come before strings.
  In C++, comparing across kinds does not compile.
- **Boolean factors.** A factor holds on a row when `to_operator(cop)`
  applied to the left column's value and the right-hand side is true.
- **Conditions.** A DNF holds when some clause has all factors true. A CNF
  holds when every clause has some factor true.

Where the source's declarations disagree with each other, the model follows
the code that uses them:

- `include/parser/common.h:239-247` declares `query` with a
  `boolean_and_terms` join condition and without `group_by_keys`.
  `include/parser/parser.h:17-44` and `include/planner.h` build and read a
  `boolean_or_terms` join condition and a `group_by_keys` list.
  `Common.Query` follows the latter.
- `include/parser/identifiers.h:106-109` appends a second table to
  `table_names`, but the type at `include/parser/common.h:183-191` has no
  `push_back`. `Common.TableNames` is a first table plus an optional second
  one, and `Identifiers.AppendTable` appends to that list of at most two.

## Model

| member | source | states |
|---|---|---|
| KeywordGen.Lower | keyword_gen.py:2 | an upper-case letter becomes the lower-case letter at the same alphabet offset, any other character is returned unchanged, and the result is never upper case |
| KeywordGen.Upper | keyword_gen.py:2 | a lower-case letter becomes the upper-case letter at the same alphabet offset, any other character is returned unchanged, and the result is never lower case |
| KeywordGen.CharClass | keyword_gen.py:2 | the character class for one keyword letter is the four characters `[`, its lower case, its upper case, `]`, and the two inner characters are the two cases of each other |
| KeywordGen.GenPattern | keyword_gen.py:2 | a keyword's pattern is four characters per keyword letter |
| KeywordGen.GenPatternBlocks | keyword_gen.py:2 | the i-th four-character block of the pattern is the character class of the keyword's i-th letter |
| KeywordGen.GenKeyword | keyword_gen.py:1-5 | the text opens the declaration of the array `{kw}_pattern`, then holds the generated pattern, then the terminal declaration `TermDecl(kw)` |
| KeywordGen.TermDecl | keyword_gen.py:4-5 | after closing the pattern string, the text declares a `ctpg::regex_term` over `{kw}_pattern`, as the variable `{kw}_kw`, with the name string `"{kw}_kw"` |
| KeywordGen.Join | keyword_gen.py:9 | joining no names gives the empty string, and joining one name gives that name |
| KeywordGen.JoinSnoc | keyword_gen.py:9 | joining one more name appends `, ` and that name, so the names appear in list order with one separator between neighbours |
| KeywordGen.TermNames | keyword_gen.py:9 | the i-th term name is the i-th keyword followed by `_kw`, one name per keyword |
| KeywordGen.Lines | keyword_gen.py:10-11 | there is one printed line per keyword |
| KeywordGen.LinesAreDeclarations | keyword_gen.py:10-11 | printed line i is the declaration of keyword i followed by a newline |
| KeywordGen.ConcatSplit | keyword_gen.py:10-11 | the printed text is the lines before line i, then line i, then the lines after it |
| KeywordGen.PrintedLines | keyword_gen.py:10-11 | printed after any head, line i sits right after the head and the lines before it |
| KeywordGen.MainOutput | keyword_gen.py:7-11 | the script prints the comma-joined term names and a newline, then the line of every keyword in list order, line i right after the lines before it |
| KeywordGen.JoinCommas | keyword_gen.py:9 | joining n comma-free names with `,` produces exactly n-1 commas |
| KeywordGen.KeywordsHaveNoComma | keyword_gen.py:8 | no term name of the generator's keyword list contains a comma |
| KeywordGen.HeaderLine | keyword_gen.py:9 | the header line of any non-empty comma-free keyword list holds one comma fewer than there are keywords |
| KeywordGen.KeywordsHeaderLine | keyword_gen.py:8-9 | the header printed for the generator's twelve keywords has exactly eleven commas |
| Utils.CountCommas | include/utils.h:6-15 | the loop returns the number of occurrences of `,` in the string |
| Utils.ToUpper | include/utils.h:17-21 | a lower-case letter maps to the upper-case letter at the same alphabet offset, every other character is unchanged, and the result is never lower case |
| Utils.ToUpperIdempotent | include/utils.h:17-21 | upper-casing twice is the same as upper-casing once |
| Utils.SubstrEqCaseInsensitive | include/utils.h:23-34 | the loop answers true exactly when the pattern occurs at the start position, ignoring case |
| Utils.FindSubstrCaseInsensitive | include/utils.h:36-46 | the result is npos exactly when the pattern occurs at no position from `pos` on; otherwise it is the first such occurrence, lying inside the string |
| Numeral.ParseDigitsValue | include/numeral.h:13-17 | the folded digit value always fits an unsigned 64-bit integer |
| Numeral.ParseDigitsSnoc | include/numeral.h:15 | appending a digit multiplies the value by ten, adds the digit and wraps modulo 2^64 |
| Numeral.ParseDigits | include/numeral.h:13-17 | the loop computes the specification value `ParseDigitsValue` of the digit string |
| Numeral.ParseDigitsExact | include/numeral.h:13-17 | when the decimal value of a digit string is below 2^64, parsing gives that value exactly |
| Numeral.ToInt64 | include/numeral.h:23 | the cast to int64 lands in the signed range and is congruent to its argument modulo 2^64; values below 2^63 are unchanged |
| Numeral.IntegerWithoutDecPtValue | include/numeral.h:19-24 | a bare digit string always has a value, and every value is in the int64 range |
| Numeral.SignPrefixes | include/numeral.h:22-24 | a leading `+` leaves the value unchanged, and a leading `-` negates any value other than the int64 minimum |
| Numeral.DoubleMinus | include/numeral.h:22 | two leading minus signs give back the original value |
| Numeral.DigitsInRange | include/numeral.h:23 | a digit string whose decimal value is below 2^63 denotes exactly that value |
| Numeral.TrailingZeros | include/numeral.h:25-26 | an integer written with a decimal point and only zeros after it has the same value as without them |
| Numeral.IntegerWithZerosIsNotFloat | include/numeral.h:26-30 | digits, a point and only zeros never form a floating-point token, so such a numeral stays an integer |
| Numeral.NumeralOfInteger | include/numeral.h:52-56 | an integer token becomes an integer numeral exactly when it has a value, and it carries that value |
| Common.AggToStr | include/parser/common.h:18-34 | every aggregate prints to a name of at least three letters |
| Common.AggToStrInjective | include/parser/common.h:18-34 | distinct aggregates print differently |
| Common.ToStr | include/parser/common.h:100-116 | every comparison operator prints to one or two characters |
| Common.ToStrInjective | include/parser/common.h:100-116 | distinct comparison operators print differently |
| Common.NegateInvolution | include/parser/common.h:83-99 | negating twice is the identity, and no operator is its own negation |
| Common.NegateMeaning | include/parser/common.h:83-99 | the negated operator holds exactly when the original does not, on any two values |
| Common.InvertInvolution | include/parser/common.h:66-82 | inverting twice is the identity, and only EQ and NEQ are their own inversion |
| Common.InvertMeaning | include/parser/common.h:66-82 | the inverted operator on (a, b) holds exactly when the original holds on (b, a) |
| Common.StrLessIrreflexive | include/parser/common.h:45-65 | no string is less than itself |
| Common.StrLessTransitive | include/parser/common.h:45-65 | the string order is transitive |
| Common.StrTrichotomy | include/parser/common.h:45-65 | any two strings are equal or ordered one way or the other |
| Common.LessIrreflexive | include/parser/common.h:45-65 | no value is less than itself |
| Common.LessTransitive | include/parser/common.h:45-65 | the value order is transitive |
| Common.SameIsEquality | include/parser/common.h:45-65 | for two values of one kind, EQ means equality, GEQ means GT or equal, and LEQ means LT or equal |
| Common.Tables | include/parser/common.h:183-191 | a table list holds one or two tables, the first one first, and two exactly when a second one is present |
| Keywords.PatternIsGenerated | include/parser/keywords.h:8-43 | every keyword's pattern is the one the generator script emits for its spelling |
| Keywords.CharClassCaseInsensitive | include/parser/keywords.h:8-43 | a character matches a letter's class exactly when it is that letter in either case |
| Keywords.SpellingIsLower | include/parser/keywords.h:8-43 | every keyword is spelled in lower-case letters |
| Keywords.GenPatternMatches | include/parser/keywords.h:8-43 | a generated pattern matches a word exactly when the word has the keyword's length and agrees with it letter by letter up to case |
| Keywords.KeywordMatches | include/parser/keywords.h:8-43 | each keyword token accepts exactly the case-insensitive spellings of the keyword |
| Keywords.AggKeyword | include/parser/keywords.h:45-51 | exactly COUNT, SUM, MAX and MIN parse as aggregates, never AVG or NONE, and each one's printed name has the keyword's spelling |
| Keywords.KwTermsComplete | include/parser/keywords.h:55-57 | the terminal list holds all twelve keywords without repetition, and AND binds tighter than OR |
| Keywords.GeneratorListDiffers | keyword_gen.py:8 | the generator's list has `avg`, which no declared keyword spells, and lacks `on`, which the header declares |
| Identifiers.StringLiteral | include/parser/identifiers.h:27-30 | the literal is the token without its first and last character |
| Identifiers.StringLiteralRoundTrip | include/parser/identifiers.h:27-30 | quoting a string and stripping the quotes gives it back, and the quoted form is a string token exactly when the quote character does not occur inside |
| Identifiers.BareColumn | include/parser/identifiers.h:36 | an unqualified column has no table, no alias and no aggregate |
| Identifiers.QualifiedColumn | include/parser/identifiers.h:37-38 | a `table.column` reference keeps both parts, with no alias and no aggregate |
| Identifiers.Aggregated | include/parser/identifiers.h:44-48 | wrapping a column in an aggregate sets the aggregate and changes nothing else |
| Identifiers.CountStar | include/parser/identifiers.h:49-54 | `COUNT(*)` is the COUNT aggregate of an empty column |
| Identifiers.Aliased | include/parser/identifiers.h:58-70 | `AS alias` sets the alias and changes nothing else |
| Identifiers.StarList | include/parser/identifiers.h:74 | `*` selects an empty column list |
| Identifiers.SingleColumn | include/parser/identifiers.h:80-83 | a single column makes a one-element list |
| Identifiers.AppendColumn | include/parser/identifiers.h:75-79 | appending keeps the earlier columns, puts the new one last and stays within the column limit |
| Identifiers.BuildColumnList | include/parser/identifiers.h:73-84 | the column list built from its rules is the list of columns as written |
| Identifiers.TableNoAlias | include/parser/identifiers.h:92-93 | a bare table name has an empty alias |
| Identifiers.TableAliased | include/parser/identifiers.h:95-104 | `table AS alias` keeps the table name and takes the alias |
| Identifiers.SingleTable | include/parser/identifiers.h:105 | one table makes a one-element table list |
| Identifiers.AppendTable | include/parser/identifiers.h:106-109 | appending a table puts it after the existing ones |
| Logical.BareBasicColumn | include/parser/logical.h:13 | an unqualified condition column has an empty table |
| Logical.QualifiedBasicColumn | include/parser/logical.h:14 | a qualified condition column keeps table and column |
| Logical.CompOpOfToken | include/parser/logical.h:17-32 | a recognised operator token is the printed form of the operator it parses to |
| Logical.CompOpTokenRoundTrip | include/parser/logical.h:17-32 | parsing an operator's printed form gives the operator back, and any token that parses is that operator's printed form |
| Logical.LiteralRhs | include/parser/logical.h:37-48 | a literal right-hand side is never a column |
| Logical.ColumnLeftFactor | include/parser/logical.h:37-46 | `column op literal` keeps the column, the operator and the literal |
| Logical.ColumnLeftMeaning | include/parser/logical.h:37-46 | the factor holds exactly when the operator holds between the column's value and the literal |
| Logical.LiteralLeftFactor | include/parser/logical.h:39-48 | `literal op column` is stored with the column on the left and the inverted operator |
| Logical.LiteralLeftMeaning | include/parser/logical.h:39-48 | the stored factor holds exactly when the original operator holds between the literal and the column's value |
| Logical.NotFactor | include/parser/logical.h:49-52 | `NOT` negates the operator and keeps both sides |
| Logical.NotMeaning | include/parser/logical.h:49-52 | the negated factor holds exactly when the factor does not, and `NOT NOT` is the identity |
| Logical.TwoSidedFactor | include/parser/logical.h:53-54 | `column op column` is a two-sided factor with both columns and the operator |
| Logical.TwoSidedMeaning | include/parser/logical.h:53-54 | the factor holds exactly when the operator holds between the two columns' values |
| Logical.SingleFactor | include/parser/logical.h:62-69 | one factor makes a one-factor conjunction |
| Logical.AppendFactor | include/parser/logical.h:63-71 | appending a factor keeps the earlier ones, within the AND-term limit |
| Logical.SingleConjunction | include/parser/logical.h:65-72 | one conjunction makes a one-clause disjunction |
| Logical.AppendConjunction | include/parser/logical.h:66-74 | appending a conjunction keeps the earlier ones, within the OR-term limit |
| Logical.ListMeaning | include/parser/logical.h:61-75 | the condition lists mean what they parse: a conjunction holds when all its factors hold, and a disjunction when any of its conjunctions holds |
| QueryRules.SelectOnWhere | include/parser/parser.h:18-24 | `SELECT … FROM a, b ON … WHERE …` keeps the columns, both tables and both conditions, with no group keys |
| QueryRules.SelectOn | include/parser/parser.h:25-30 | a join query without `WHERE` has an empty where-condition |
| QueryRules.SelectWhere | include/parser/parser.h:31-34 | a query without a join has an empty join condition |
| QueryRules.SelectFrom | include/parser/parser.h:35-38 | a plain query has neither condition |
| QueryRules.WithGroupBy | include/parser/parser.h:39-43 | `GROUP BY` sets the keys and changes nothing else |
| QueryRules.ShapesAgree | include/parser/parser.h:17-44 | the shorter statement forms are the longer ones with empty conditions, and `GROUP BY` leaves the conditions alone |
| ToyParser.Empty | include/parser.h:20 | a new array-like has the given capacity, every slot holds the initial value, and its contents are empty |
| ToyParser.Add | include/parser.h:23-28 | as written, `add` copies the first `len` slots, writes the new element one slot too far, leaves slot `len` unset and increments `len` |
| ToyParser.AddAsWrittenLosesElement | include/parser.h:23-28 | adding 7 to an empty array-like of capacity three shows contents `[0]` instead of `[7]` |
| ToyParser.AddCorrected | include/parser.h:23-28 | writing at index `len` appends the element to the contents and leaves the slots above it unchanged |
| ToyParser.ToyColName | include/parser.h:80 | the toy rule's value for an identifier is its length, which is positive |
| ToyParser.FoldListSums | include/parser.h:79-84 | applying the list rule (lines 82-83) to identifiers in order, from any starting value, adds the total of their lengths to it; the grammar has no base rule for the list (the `'*'` rule at line 81 is commented out), so the starting value is a parameter |
| Schema.MemberList | include/schema.h:43-45 | the member list names the schema's fields in order |
| Schema.Find | include/schema.h:50-51 | the result is the first position holding the name, or the list's length when the name is absent |
| Schema.GetIndex | include/schema.h:47-52 | the index is below the field count exactly when the name is a member, and it is then the first field with that name |
| Schema.GetIndexOfMember | include/schema.h:47-52 | in a schema with distinct names, the index of the i-th field's name is i |
| Schema.ResolveName | include/schema.h:73-82 | a one-schema lookup succeeds exactly when the name is a member |
| Schema.ResolveName2 | include/schema.h:84-97 | a two-schema lookup is ambiguous when both have the name, unknown when neither does, and otherwise names the one schema that has it |
| Schema.SchemaToTuple | include/schema.h:99-105 | a record becomes a tuple with one entry per field |
| Schema.TupleAtIndex | include/schema.h:99-105 | the tuple's entry at a member's index is that member's value in the record |
| Preproc.ResolveNameTag | include/parser/preproc.h:19-32 | an unqualified column is tagged `"0"` or `"1"` by the one schema that has it, ambiguous if both do and unknown if neither does |
| Preproc.Qualify | include/parser/preproc.h:42-54 | a rewritten table tag is `"0"`, `"1"` or the table unchanged, and the only failures are an ambiguous table when dealiasing and an ambiguous or unknown column when resolving two tables |
| Preproc.Requalify | include/parser/preproc.h:75-87 | one column reference gets the table from `Qualify`, or its error |
| Preproc.ColumnsMirrorRefs | include/parser/preproc.h:56-57 | rewriting the selected columns fails exactly when rewriting their references does, with the same error, and on success gives the rewritten references |
| Preproc.ColumnsKeepBlank | include/parser/preproc.h:89-90 | rewriting the selected columns changes only their table parts |
| Preproc.ColumnsKeepColumn | include/parser/preproc.h:56-57 | each rewritten column equals the original except for its table |
| Preproc.FactorMirrorsRefs | include/parser/preproc.h:59-69 | rewriting a boolean factor fails exactly when rewriting its column references does, and on success gives the rewritten references |
| Preproc.ConjunctionMirrorsRefs | include/parser/preproc.h:59-69 | the same for a conjunction: error for error, reference for reference |
| Preproc.FactorKeepsBlank | include/parser/preproc.h:92-102 | rewriting a factor changes only table parts |
| Preproc.ConjunctionKeepsBlank | include/parser/preproc.h:92-102 | rewriting a conjunction changes only table parts |
| Preproc.ConditionMirrorsRefs | include/parser/preproc.h:59-69 | rewriting a DNF condition fails exactly when rewriting its references does, and on success gives the rewritten references |
| Preproc.ConditionKeepsBlank | include/parser/preproc.h:92-102 | rewriting a DNF condition changes only table parts |
| Preproc.QualifyQueryMeaning | include/parser/preproc.h:55-70 | rewriting a query is the same as rewriting, in order, every column reference it holds: it fails with the first reference's error and otherwise changes nothing but table parts |
| Preproc.SubstituteColumns | include/parser/preproc.h:56 | the loop over the selected columns computes the specification rewrite |
| Preproc.SubstituteConjunction | include/parser/preproc.h:60-63 | the loop over a conjunction computes the specification rewrite |
| Preproc.SubstituteCondition | include/parser/preproc.h:59-69 | the nested loops over a DNF compute the specification rewrite |
| Preproc.SubstituteQuery | include/parser/preproc.h:55-70 | the query rewrite computes the specification rewrite of every part of the query |
| Preproc.DealiasQuery | include/parser/preproc.h:34-71 | `dealias` returns the specification dealiasing of the query |
| Preproc.DealiasQualifier | include/parser/preproc.h:42-54 | an empty table stays empty, a name of the first table becomes `"0"`, of the second `"1"`, any other table is kept, and the only error is a table named by both |
| Preproc.DealiasErrors | include/parser/preproc.h:35-47 | dealiasing fails exactly on a shadowing alias or an ambiguous table reference, and never with a single table |
| Preproc.DealiasResult | include/parser/preproc.h:34-71 | a successful dealias keeps the tables and everything but table parts, and retags each reference by the table it denotes |
| Preproc.ShadowingSkippedWithoutFirstAlias | include/parser/preproc.h:35-41 | the shadowing check runs only when the first table has an alias: `Point` with the second table aliased `Point` passes it |
| Preproc.ResolveTableName | include/parser/preproc.h:73-115 | `resolve_table_name` returns the specification resolution of the query against its schemas |
| Preproc.ResolveOneTable | include/parser/preproc.h:76-113 | with one table, resolution always succeeds and changes only table parts |
| Preproc.ResolveTwoTables | include/parser/preproc.h:80-113 | with two tables, resolution succeeds exactly when the query names two tables and every unqualified column is in exactly one schema |
| Preproc.ResolveCountMismatch | include/parser/preproc.h:106-113 | a query whose table count differs from the number of schemas is rejected, with a count mismatch once its columns resolve |
| Normalise.Inc | include/parser/preproc.h:117-127 | the odometer step keeps the number of digits |
| Normalise.IncValue | include/parser/preproc.h:117-127 | one step keeps the digits inside their limits and adds one to the mixed-radix value, wrapping to zero after the last combination |
| Normalise.IncDecode | include/parser/preproc.h:117-127 | stepping the k-th combination gives the (k+1)-th, and stepping the last gives all zeros |
| Normalise.IncGrowsAt | include/parser/preproc.h:117-127 | the step zeroes every saturated leading digit and increments the first one that can grow |
| Normalise.IncWrapsAll | include/parser/preproc.h:117-127 | when every digit is saturated, the step wraps them all to zero |
| Normalise.OdometerVisitsBox | include/parser/preproc.h:117-127 | k steps from zero reach the k-th combination, and after all combinations the odometer is back at zero |
| Normalise.DecodeBijective | include/parser/preproc.h:117-127 | every digit vector in the box is some combination number, and distinct numbers give distinct vectors |
| Normalise.IncrementCarryingIndices | include/parser/preproc.h:117-127 | the in-place loop over the index array performs exactly one odometer step |
| Normalise.ProdZero | include/parser/preproc.h:129-133 | the product of sizes is zero exactly when some size is zero |
| Normalise.ComputeNumberOfCnfClauses | include/parser/preproc.h:129-133 | an empty DNF has one CNF clause, and the count is zero exactly when some conjunction is empty |
| Normalise.Sizes | include/parser/preproc.h:139-145 | the limits are the lengths of the DNF's conjunctions |
| Normalise.FillLimits | include/parser/preproc.h:139-145 | the new limits array holds the conjunction lengths |
| Normalise.Clause | include/parser/preproc.h:147-151 | a CNF clause takes the factor at the chosen index from each conjunction |
| Normalise.Extract | include/parser/preproc.h:147-151 | the extraction loop builds the clause selected by the current indices |
| Normalise.CnfOf | include/parser/preproc.h:136-159 | the CNF has as many clauses as computed |
| Normalise.NextClause | include/parser/preproc.h:136-159 | the k-th index vector selects the k-th clause, and one odometer step moves to the next |
| Normalise.EmitClauses | include/parser/preproc.h:153-157 | the result loop fills slot k with the clause the odometer selects at position k, so the array ends up holding the whole CNF |
| Normalise.DnfToCnf | include/parser/preproc.h:136-159 | the conversion loop produces the clauses of every index combination, in odometer order |
| Normalise.CnfOfEquivalent | include/parser/preproc.h:136-159 | under any valuation of factors, the CNF holds exactly when the DNF holds |
| Normalise.DnfToCnfEquivalent | include/parser/preproc.h:136-159 | the conversion preserves meaning, has the computed clause count, and every clause has one factor per conjunction |
| Selector.ColumnIndexReads | include/operator/selector.h:16-19 | the index of a tagged column in the joined tuple reads that column's value from the record of its table |
| Selector.RhsTag | include/operator/selector.h:59-68 | the right-hand-side tag names exactly the alternative the right-hand side holds |
| Selector.MakeIndices1d | include/operator/selector.h:11-24 | the row of indices holds each factor's column position for the first `len` factors and padding after them |
| Selector.MakeCopList1d | include/operator/selector.h:36-43 | the row of operators holds each factor's operator for the first `len` factors |
| Selector.MakeRhsTypeList1d | include/operator/selector.h:55-72 | the row of tags holds each factor's right-hand-side tag for the first `len` factors |
| Selector.MakeIndices2d | include/operator/selector.h:26-34 | each row of the index matrix is the 1-d index row of the matching clause |
| Selector.MakeCopList2d | include/operator/selector.h:45-53 | each row of the operator matrix is the 1-d operator row of the matching clause |
| Selector.MakeRhsTypeList2d | include/operator/selector.h:74-82 | each row of the tag matrix is the 1-d tag row of the matching clause |
| Selector.RhsLiteral | include/operator/selector.h:84-96 | reading the literal succeeds exactly when the tag matches the alternative held, otherwise gives a bad variant access, and for a correctly tagged literal it is the literal's value |
| Selector.MakeSelector | include/operator/selector.h:87-107 | a one-sided selector compares the column with the literal; a two-sided one compares two columns; a one-sided selector over a column rhs fails with a bad variant access |
| Selector.AndConstruct | include/operator/selector.h:109-128 | the AND selector accepts a tuple exactly when all its parts do |
| Selector.OrConstruct | include/operator/selector.h:130-149 | the OR selector accepts a tuple exactly when some part does, or when it has no parts |
| Selector.Collect | include/operator/selector.h:190-206 | collecting results succeeds exactly when every element does, keeps them in order, and otherwise returns one element's error |
| Selector.Leaves | include/operator/selector.h:190-206 | one leaf selector is built per factor of the row |
| Selector.LeafMeaning | include/operator/selector.h:87-107 | a leaf built from a factor's own indices, operator and tag accepts a tuple exactly when the factor holds on it |
| Selector.RowMeaning | include/operator/selector.h:190-206 | a clause's OR selector holds exactly when some factor does, and its AND selector when all do |
| Selector.LeavesMeaning | include/operator/selector.h:190-206 | the leaves of a well-built row all build, and each evaluates as its factor |
| Selector.RowSelectors | include/operator/selector.h:208-230 | one row selector is built per clause |
| Selector.MatrixRowMeaning | include/operator/selector.h:208-230 | every row selector of a well-built matrix builds and means its clause |
| Selector.CnfSelectorMeaning | include/operator/selector.h:208-218 | the CNF selector built from the matrices accepts a tuple exactly when the truncated CNF holds on it |
| Selector.DnfSelectorMeaning | include/operator/selector.h:220-230 | the DNF selector built from the matrices accepts a tuple exactly when the truncated DNF holds on it |
| Selector.MakeInnerDim | include/operator/selector.h:152-159 | the array has the given length and every slot holds the given value |
| Selector.MakeInnerDimOf | include/operator/selector.h:161-168 | the inner dimensions of a DNF are its conjunction lengths |
| Selector.MaxLen | include/operator/selector.h:174-180 | the maximum is at least every length and is one of them, or zero for no lengths |
| Selector.AlignDnf | include/operator/selector.h:170-188 | the aligned matrix has max-length rows, holds the DNF's factors in place and default factors as padding |
| Selector.Truncated | include/operator/selector.h:181-187 | each row is cut to its own length |
| Selector.AlignedTruncates | include/operator/selector.h:181-187 | cutting the aligned matrix back to the inner dimensions gives the original DNF |
| Selector.AllTagMeaning | include/operator/selector.h:237-244 | a clause is all-tagged exactly when every factor's left table has the tag |
| Selector.SiftPass | include/operator/selector.h:236-248 | the in-place pass permutes the tail so that all-tagged clauses come first, up to the returned sentinel, keeps the prefix and keeps the multiset |
| Selector.Swap | include/operator/selector.h:238-245 | the swap exchanges two slots and leaves the rest and the prefix untouched |
| Selector.SwapKeepsMultiset | include/operator/selector.h:238-245 | exchanging two elements keeps the multiset |
| Selector.Sift | include/operator/selector.h:232-251 | the clauses are permuted into first-table-only, then second-table-only, then mixed clauses |
| Selector.SplitSifted | include/operator/selector.h:253-270 | the three parts have the sentinel-given lengths and concatenate to the sifted clauses |
| Selector.CnfPermutation | include/operator/selector.h:232-270 | a CNF's meaning does not depend on the order of its clauses |
| Selector.CnfSplit | include/operator/selector.h:232-270 | a CNF split in three parts holds exactly when all three parts hold |
| JoinIndices.EqFactors | include/operator/join.h:11-23 | the EQ factors are no more than the factors |
| JoinIndices.OtherFactors | include/operator/join.h:11-23 | the other factors are no more than the factors |
| JoinIndices.SiftJoinCondition | include/operator/join.h:11-23 | the sifting loop returns the EQ factors and the other factors |
| JoinIndices.SiftJoinConditionOperators | include/operator/join.h:11-23 | every factor of the first list is EQ and none of the second is |
| JoinIndices.SiftJoinConditionPartition | include/operator/join.h:11-23 | the two lists together hold exactly the input factors, as a multiset |
| JoinIndices.SiftJoinConditionOrder | include/operator/join.h:11-23 | each list keeps the input order: sifting distributes over concatenation |
| JoinIndices.MakeJoinIndices | include/operator/join.h:25-40 | for each EQ factor the first list gets the first table's column position and the second list the second table's, whichever side of `=` each is on |
| Projector.MakeIndicesAndAggOps | include/operator/projector.h:10-23 | each selected column gets its aggregate, and its tuple index or the COUNT marker |
| Projector.NeedReduction | include/operator/projector.h:25-26 | a reduction is needed exactly when some column has an aggregate |
| Projector.NeedReductionIsNotAllNone | include/operator/projector.h:25-26 | needing a reduction is the negation of "all aggregates are NONE" |
| Projector.Project | include/operator/projector.h:28-46 | the projection has one entry per index: 1 for a COUNT entry, the tuple's value at the index otherwise |
| Projector.ProjectEntries | include/operator/projector.h:10-46 | projecting a record's tuple gives 1 for each COUNT column and the record's value for each member column |
| Projector.ReductionBase | include/operator/projector.h:51-69 | COUNT starts at 0, NONE and SUM at the type's default, MAX at a value no member of the type is below and MIN at one no member is above; MAX or MIN of text, and AVG, are unsupported |
| Projector.ProjectedTypes | include/operator/projector.h:48-49 | one type per projected entry |
| Projector.TupleReductionBase | include/operator/projector.h:71-79 | the base tuple exists exactly when every column's base does, and is the column bases in order |
| Projector.StepValue | include/operator/projector.h:81-98 | NONE keeps the first value and then the latched one, COUNT and SUM add, MAX and MIN pick the larger or smaller of the two and keep the old one on ties |
| Projector.Fresh | include/operator/projector.h:84 | a fresh reduction state has every NONE latch set |
| Projector.StepTuple | include/operator/projector.h:100-115 | one step keeps the state's width |
| Projector.FoldState | include/operator/projector.h:100-115 | folding rows keeps the state's width |
| Projector.TupleOperator.constructor | include/operator/projector.h:112-115 | the operator starts with the given aggregates and every latch set |
| Projector.TupleOperator.Apply | include/operator/projector.h:100-105 | applying the operator to a base and a row gives the specification step, and updates the latches in place |
| Projector.FoldSum | include/operator/projector.h:90-91 | folding a SUM or COUNT column from 0 gives the column's sum |
| Projector.FoldCount | include/operator/projector.h:90-91 | folding a COUNT column of ones from 0 gives the number of rows |
| Projector.FoldNone | include/operator/projector.h:83-89 | a NONE column takes the first row's value if its latch was set and is otherwise unchanged, and the latch is spent after any row |
| Projector.FoldMax | include/operator/projector.h:92-93 | the folded MAX is no less than the seed or any row's value, and is one of them |
| Projector.FoldMin | include/operator/projector.h:94-96 | the folded MIN is no greater than the seed or any row's value, and is one of them |
| EqJoin.NestedLoopRightOuter | include/planner.h:143-156 | the loop with the right table outside yields the kept pairs column by column |
| EqJoin.NestedLoopLeftOuter | include/planner.h:158-171 | the loop with the left table outside yields the kept pairs row by row |
| EqJoin.NestedLoopBothMaterialised | include/planner.h:173-175 | with both sides materialised the join runs with the right table outside |
| EqJoin.NestedLoopNoneMaterialised | include/planner.h:177-183 | with neither side materialised the right side is copied into a vector and the join runs with the left table outside, over that copy |
| EqJoin.LoopOrdersAgree | include/planner.h:143-171 | both loop orders yield the same rows, as a multiset |
| EqJoin.RowMembers | include/planner.h:158-171 | one left row's output holds exactly its concatenations with the right rows that are kept |
| EqJoin.ProductMembers | include/planner.h:158-171 | a row is in the join exactly when it is a kept pair of a left and a right row |
| EqJoin.ProductMembersIf | include/planner.h:158-171 | every kept pair is in the join |
| EqJoin.ProductMembersOnlyIf | include/planner.h:158-171 | every joined row is a kept pair |
| EqJoin.CrossBlocks | include/planner.h:152-167 | one block per left row, each as long as the right table |
| EqJoin.CrossProduct | include/planner.h:152-167 | without a selector the join is the full cross product, of size |l| × |r| |
| EqJoin.BucketsMeaning | include/planner.h:99-106 | the hash table has a bucket for exactly the keys some left row has, holding those rows in order |
| EqJoin.BuildBuckets | include/planner.h:99-106 | the build loop fills the hash table with the specification buckets |
| EqJoin.ProbeStep | include/planner.h:108-125 | for one key, joining its left rows by key is joining them with that key's right rows under the residual selector |
| EqJoin.ProbedAll | include/planner.h:108 | probing every key of the table covers all left rows |
| EqJoin.HashJoin | include/planner.h:96-126 | the hash join yields, as a multiset, the pairs with equal keys that the residual selector keeps |
| ReduceGroup.GroupByIndices | include/planner.h:206-212 | one tuple index per group key |
| ReduceGroup.GroupKeyReads | include/planner.h:206-217 | projecting a joined tuple on the group indices reads each key's value from its table's record |
| ReduceGroup.GroupKeyReadsOne | include/planner.h:206-217 | the same for a single table |
| ReduceGroup.Projections | include/planner.h:229-250 | each input row is projected on the selected entries |
| ReduceGroup.GlobalReduce | include/planner.h:239-254 | the global reduction yields one row, the fold of all projected rows from a fresh state |
| ReduceGroup.GlobalCount | include/planner.h:246-253 | its COUNT entry is the number of input rows |
| ReduceGroup.SharedFold | include/planner.h:220-234 | the specification of the grouped loop as written keeps one state width per group |
| ReduceGroup.YieldValues | include/planner.h:231-233 | every group is yielded once, with its folded row |
| ReduceGroup.GroupedReduceAsWritten | include/planner.h:220-234 | the grouped loop as written yields each group of the shared-latch fold once, with its row |
| ReduceGroup.SharedKeys | include/planner.h:220-234 | the shared-latch fold has a group for exactly the keys of the input rows |
| ReduceGroup.SharedLatchSpent | include/planner.h:220-234 | with one shared operator, the first row spends every NONE latch |
| ReduceGroup.SharedLatchKeepsSeed | include/planner.h:220-234 | so every group other than the first row's keeps the seed in its NONE columns |
| ReduceGroup.SharedLatchLosesKey | include/planner.h:220-234 | `SELECT a, COUNT(*) … GROUP BY a` over rows a=1, a=2 gives group 2 the value 0 in column a |
| ReduceGroup.GroupFolds | include/planner.h:220-234 | the per-group fold keeps one state width per group |
| ReduceGroup.Bases | include/planner.h:220-234 | the yielded rows are each group's folded values |
| ReduceGroup.GroupedReduce | include/planner.h:220-234 | the grouped reduction yields every group exactly once, with its fold, and nothing for empty input |
| ReduceGroup.GroupIsGlobalReduce | include/planner.h:220-234 | a group exists exactly for the keys of input rows, and its row is the global reduction of the rows with that key |
| ReduceGroup.GroupKeys | include/planner.h:220-234 | the groups are exactly the keys of the input rows |
| ReduceGroup.EmptyGroup | include/planner.h:220-234 | a key no input row has selects no rows |
| ReduceGroup.NonEmptyGroup | include/planner.h:220-234 | a key some input row has selects at least one row |
| ReduceGroup.GroupCount | include/planner.h:220-234 | a group's COUNT entry is the number of rows with its key |
| ReduceGroup.GroupFirstValue | include/planner.h:220-234 | a group's NONE entry is the value in its first row |
| ReduceGroup.PerGroupLatchKeepsKey | include/planner.h:220-234 | with one operator per group, group 2 of the same example keeps a = 2 |
| ReduceGroup.ExampleProjections | include/operator/projector.h:28-46 | the projections of that example's rows |
| QueryPlanner.IsJoinWellFormed | include/planner.h:338-348 | a join condition is well formed exactly when no factor compares a table with itself |
| QueryPlanner.AdmitsEqJoin | include/planner.h:350-357 | the hash join applies exactly when the condition is a single conjunction with an EQ factor |
| QueryPlanner.HasEqFactor | include/planner.h:350-357 | a conjunction has an EQ factor exactly when its sifted EQ list is non-empty |
| QueryPlanner.CnfKeeps | include/planner.h:278-291 | any property of all factors of the DNF holds of all CNF factors, and every CNF clause is as wide as the DNF |
| QueryPlanner.PermutedKeeps | include/planner.h:278-291 | permuting clauses keeps such a property and the width |
| QueryPlanner.PartsKeep | include/planner.h:278-291 | each part of a split keeps it |
| QueryPlanner.UniformTruncated | include/planner.h:278-291 | cutting uniform clauses to their full width changes nothing |
| QueryPlanner.CnfBuilt | include/planner.h:278-291 | matrices built row by row from uniform literal clauses are well built |
| QueryPlanner.LeftLocal | include/planner.h:294-310 | a first-table factor means the same on the first table's row as on the joined tuple |
| QueryPlanner.RightLocal | include/planner.h:294-310 | a second-table factor means the same on the second table's row as on the joined tuple |
| QueryPlanner.CnfAgree | include/planner.h:280-287 | two valuations that agree on every factor give the CNF the same meaning |
| QueryPlanner.SplitMeaning | include/planner.h:280-287 | the three sifted parts together hold exactly when the WHERE condition holds |
| QueryPlanner.CnfListsMeaning | include/planner.h:294-322 | the CNF selector of well-built matrices builds and means the CNF |
| QueryPlanner.CnfSelectorOf | include/planner.h:294-322 | the pushed-down selector is absent exactly for no clauses, and passes a tuple exactly when the clauses hold on it |
| QueryPlanner.DnfBuilt | include/planner.h:325-332 | aligned DNF matrices are well built and truncate back to the condition |
| QueryPlanner.DnfListsMeaning | include/planner.h:325-332 | the DNF selector of well-built matrices builds and means the DNF |
| QueryPlanner.RowFailure | include/planner.h:325-332 | building a clause fails only with a bad variant access |
| QueryPlanner.RowFails | include/planner.h:135-141 | a one-sided clause with a column rhs fails with a bad variant access |
| QueryPlanner.DnfListsFail | include/planner.h:135-141 | a one-sided DNF selector over a condition with a column rhs fails with a bad variant access |
| QueryPlanner.DnfSelectorOf | include/planner.h:325-332 | with matching sides, the DNF selector builds, is absent exactly for an empty condition and means the condition; one-sided over a column rhs it fails |
| QueryPlanner.PushdownMeaning | include/planner.h:280-322 | filtering the first table by its clauses, the second by its own and the joined tuple by the mixed ones keeps exactly the tuples on which WHERE holds |
| QueryPlanner.SiftedTags | include/planner.h:280-287 | the first part's clauses are all first-table and the second part's all second-table |
| QueryPlanner.PlanWhere | include/planner.h:276-335 | the WHERE plan is sound: its selectors together keep exactly the tuples the condition accepts |
| QueryPlanner.SiftedFrom | include/planner.h:73-75 | every sifted factor comes from the conjunction |
| QueryPlanner.PlanHashJoin | include/planner.h:73-93 | the key indices read the EQ factors' columns, and the residual selector is absent exactly for no other factors and means them otherwise |
| QueryPlanner.KeyFactorMeaning | include/planner.h:73-126 | an EQ key factor holds on a joined tuple exactly when its two key entries are equal |
| QueryPlanner.AllHoldPartition | include/planner.h:113-120 | a conjunction split in two holds exactly when both parts hold |
| QueryPlanner.EqFactorsMeaning | include/planner.h:73-126 | all EQ factors hold exactly when the two key projections are equal |
| QueryPlanner.HashJoinKeepsCondition | include/planner.h:73-126 | the hash join keeps a pair exactly when the join condition holds on it |
| QueryPlanner.ClauseSplit | include/planner.h:113-120 | testing the keys and then the residual is testing the whole clause |
| QueryPlanner.EqFactorsKey | include/planner.h:73-77 | every sifted EQ factor is a key factor |
| QueryPlanner.NestedLoopSelectorAsWritten | include/planner.h:135-141 | as written, the nested-loop selector fails with a bad variant access on any condition with a column rhs, and is absent for no condition |
| QueryPlanner.NestedLoopSelector | include/planner.h:135-141 | built two-sided, the nested-loop selector is absent exactly for no condition and means the condition |
| QueryPlanner.Join | include/planner.h:96-183 | the planned join yields, as a multiset, the kept pairs, in loop order for the nested loop |
| QueryPlanner.JoinedRows | include/planner.h:143-183 | a row is joined exactly when it is a left row and a right row on which the join condition holds |
| QueryPlanner.HashPlanMeaning | include/planner.h:73-126 | the hash plan keeps a pair exactly when the single-clause join condition holds |
| QueryPlanner.PlanJoin | include/planner.h:187-193 | the join plan is sound: no join without a condition, a hash join with key indices for a single conjunction with an EQ factor, and a nested loop meaning the condition otherwise |
| QueryPlanner.PlanQuery | include/planner.h:268-373 | planning fails exactly on a same-table join factor; otherwise the WHERE and join plans are sound and the projection, reduction and grouping are those the query asks for |

## Left out

- Compile-time parsing machinery is not modelled: the ctpg grammar,
  `static_assert` on the table count and rule dispatch. Each rule is a
  constructor function, and the statement shapes are functions of their
  parts.
- The floating-point numeral rules (`include/numeral.h:29-50`) are not
  modelled. Double literals are exact `Real` values, and no rounding is
  modelled.
- `operator<<` printers for the parse tree (`include/parser/common.h`)
  produce text output only.
- `invoke_at` (`include/schema.h:16-32`) is not modelled, because it is
  reflection over aggregates. The model indexes tuples directly.
- `make_getter` and `make_selector` (`include/schema.h:54-71`) are not
  modelled. The selectors of `include/operator/selector.h` replace them, and
  they throw for a literal rhs.
- The two-schema `get_index<S1, S2>` overload is not part of this model.
  `Selector.ColumnIndex` stands in for it: the position in the concatenated
  tuple, with tag `"0"` for the first schema and the second schema's fields
  after the first's.
- Hashing and the iteration order of `std::unordered_map` are not modelled.
  The hash join and the grouped reduction are specified up to the order of
  their output: a multiset, or each group exactly once.
- Coroutine generators are modelled as methods that return the whole
  sequence of yielded rows. Laziness and interleaving are not captured.
- Templates and reflection over record types are not modelled. A row is a
  sequence of `Value`s, and a schema has integer or text fields.
- `ToyParser.Add`: models `ArrayLike.add` on a value copy. That matches the
  source, which returns a new array.
- `Projector.StepValue`: COUNT and SUM add unbounded integers. The uint64
  and field-width wrap-around of the source is not modelled.
- `Projector.Project`: a projection index outside the tuple, which
  `std::get` rejects at compile time, gives `Int(0)`.
- `Projector.ReductionBase`: AVG has no reduction step in the source, so its
  base is `Err(UnsupportedAggregate)`. The MAX and MIN seeds take the field
  type's bounds in place of `numeric_limits`. For a floating-point type,
  `numeric_limits::min()` is the smallest positive value, which is a
  different seed, but floating-point fields are left out.
- `include/planner.h:227` calls `make_reduction_base`, which does not exist.
  The intended function is `make_tuple_reduction_base`. The grouped
  reduction takes the base tuple as a parameter.
- `include/parser/common.h:216` declares `BooleanFactor` as a plain struct.
  The rest of the core uses it, or the AND/OR lists built from it, as
  templates (`BooleanFactor<one_side>`, `BooleanFactor<>`,
  `BooleanOrTerms<true>`): `include/parser/logical.h:34-74`,
  `include/parser/parser.h:22-37`, `include/parser/preproc.h:129-153`,
  `include/operator/join.h:15,30` and `include/operator/selector.h`.
  `include/planner.h` only passes `one_side` as a template argument. The
  model has one `BooleanFactor` and passes `oneSide` as a flag.
- The preconditions below are not restrictions of the model: the grammar
  and the `static_assert`s of `include/planner.h` (line 84 and lines
  338-348) guarantee them at every call site.
- `QueryPlanner.PlanQuery`: the `static_assert`s on the join condition's
  shape appear as the error `MalformedJoinCondition`. The other compile-time
  failures appear as preconditions:
  - join factors are two-sided;
  - WHERE factors have literal right-hand sides;
  - a non-empty join condition comes with a second schema.
- `QueryPlanner.HashPlanMeaning`: the `static_assert` at `include/planner.h:84`
  requires both key types to agree. It appears as the hypothesis
  `KeysOfOneKind`, that each pair of key entries compared has the same kind.
- `QueryPlanner.SameTable`: reads the rhs's table from the column
  alternative of the rhs variant.
- `EqJoin.NestedLoopNoneMaterialised`: assumes the copied right input
  lives as long as the join that reads it. In `include/planner.h:177-182`
  the copy is a local vector, and the returned generator holds it by
  reference. The generator starts suspended, so the vector is destroyed
  before the first row is read, and the source reads a dead object. The
  model yields the rows the copy would give.
- `KeywordGen.Lower`: maps ASCII letters only. Python's `str.lower` also
  maps non-ASCII letters. The script's keyword list is ASCII.
- `KeywordGen.Upper`: maps ASCII letters only. Python's `str.upper` maps
  some characters to several (`'ß'` to `"SS"`). The script's keyword list
  is ASCII.
- `KeywordGen.GenPattern`: four characters per letter holds for ASCII
  keywords only, because of the case mappings above.
- Concurrency and I/O: none in the core.

## Findings

| source | as written | input that shows it | evidently intended | confidence | as-written member | corrected member |
|---|---|---|---|---|---|---|
| include/parser.h:23-28 | `add` stores the new element at `new_arr[a.len + 1]` | an empty array-like of capacity 3, add 7: contents are `[0]`, the unset slot | store at `new_arr[a.len]`, so the contents become `[7]` | not executed | ToyParser.AddAsWrittenLosesElement | ToyParser.AddCorrected |
| include/planner.h:220-234 | one `to_tuple_operator` serves all groups, so the `first` latch of a NONE column (include/operator/projector.h:83-89) is spent by the first row of the first group | `SELECT a, COUNT(*) FROM t GROUP BY a` over rows a=1, a=2: group 2 yields a = 0 | one reduction state per group, so each group's plain column is its own key value | not executed | ReduceGroup.SharedLatchLosesKey | ReduceGroup.PerGroupLatchKeepsKey |
| include/planner.h:135-141 | the nested-loop join builds its DNF selector with `one_side = true`, so `make_selector` reads a literal from a column rhs | any join condition that is not one conjunction with an EQ factor, e.g. `ON a.x < b.y`: bad variant access | build the selector two-sided (`one_side = false`), comparing the two columns | not executed | QueryPlanner.NestedLoopSelectorAsWritten | QueryPlanner.NestedLoopSelector |
