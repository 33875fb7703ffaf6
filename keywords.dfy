/** The SQL keyword terminals (include/parser/keywords.h): one
    case-insensitive character-class pattern per keyword, the AND/OR
    precedences, the aggregate-keyword mapping and the terminal set. */
module Keywords {
  import opened Wrappers
  import opened Common
  import opened Utils
  import KeywordGen

  datatype Keyword = SelectKw | AsKw | FromKw | WhereKw | OnKw | CountKw | SumKw | MaxKw | MinKw | NotKw | AndKw | OrKw

  /** The word each terminal stands for, in lower case. */
  function Spelling(k: Keyword): string
  {
    match k
    case SelectKw => "select"
    case AsKw => "as"
    case FromKw => "from"
    case WhereKw => "where"
    case OnKw => "on"
    case CountKw => "count"
    case SumKw => "sum"
    case MaxKw => "max"
    case MinKw => "min"
    case NotKw => "not"
    case AndKw => "and"
    case OrKw => "or"
  }

  /** The pattern constants as they are written. */
  function Pattern(k: Keyword): string
  {
    match k
    case SelectKw => "[sS][eE][lL][eE][cC][tT]"
    case AsKw => "[aA][sS]"
    case FromKw => "[fF][rR][oO][mM]"
    case WhereKw => "[wW][hH][eE][rR][eE]"
    case OnKw => "[oO][nN]"
    case CountKw => "[cC][oO][uU][nN][tT]"
    case SumKw => "[sS][uU][mM]"
    case MaxKw => "[mM][aA][xX]"
    case MinKw => "[mM][iI][nN]"
    case NotKw => "[nN][oO][tT]"
    case AndKw => "[aA][nN][dD]"
    case OrKw => "[oO][rR]"
  }

  /** The LR precedence each terminal carries (only AND and OR set one). */
  const AndPrecedence: nat := 1
  const OrPrecedence: nat := 0

  predicate LowerWord(s: string) { forall i :: 0 <= i < |s| ==> 'a' <= s[i] <= 'z' }

  /** A pattern made of bracket expressions `[xy]`, one per input
      character, matches s when every character of s is one of the two
      characters of its bracket. */
  predicate ClassesMatch(p: string, s: string)
  {
    |p| == 4 * |s| && forall i :: 0 <= i < |s| ==> s[i] == p[4 * i + 1] || s[i] == p[4 * i + 2]
  }

  /** Every pattern constant is exactly what KeywordGen's GenPattern
      builds from the keyword's spelling (checked in small groups). */
  lemma PatternIsGenerated(k: Keyword)
    ensures Pattern(k) == KeywordGen.GenPattern(Spelling(k))
  {
    if k == SelectKw {
      SelectPatternGenerated();
    } else if k in {AsKw, FromKw} {
      StatementPatternsGenerated(k);
    } else if k in {WhereKw, OnKw, NotKw} {
      ClausePatternsGenerated(k);
    } else if k in {CountKw, SumKw} {
      CountSumPatternsGenerated(k);
    } else if k in {MaxKw, MinKw} {
      MaxMinPatternsGenerated(k);
    } else {
      ConnectivePatternsGenerated(k);
    }
  }

  lemma SelectPatternGenerated()
    ensures Pattern(SelectKw) == KeywordGen.GenPattern(Spelling(SelectKw))
  {
    assert KeywordGen.GenPattern("select") == "[sS][eE][lL][eE][cC][tT]";
  }

  lemma StatementPatternsGenerated(k: Keyword)
    requires k in {AsKw, FromKw}
    ensures Pattern(k) == KeywordGen.GenPattern(Spelling(k))
  {
    match k
    case AsKw => assert KeywordGen.GenPattern("as") == "[aA][sS]";
    case FromKw => assert KeywordGen.GenPattern("from") == "[fF][rR][oO][mM]";
  }

  lemma ClausePatternsGenerated(k: Keyword)
    requires k in {WhereKw, OnKw, NotKw}
    ensures Pattern(k) == KeywordGen.GenPattern(Spelling(k))
  {
    match k
    case WhereKw => assert KeywordGen.GenPattern("where") == "[wW][hH][eE][rR][eE]";
    case OnKw => assert KeywordGen.GenPattern("on") == "[oO][nN]";
    case NotKw => assert KeywordGen.GenPattern("not") == "[nN][oO][tT]";
  }

  lemma CountSumPatternsGenerated(k: Keyword)
    requires k in {CountKw, SumKw}
    ensures Pattern(k) == KeywordGen.GenPattern(Spelling(k))
  {
    match k
    case CountKw => assert KeywordGen.GenPattern("count") == "[cC][oO][uU][nN][tT]";
    case SumKw => assert KeywordGen.GenPattern("sum") == "[sS][uU][mM]";
  }

  lemma MaxMinPatternsGenerated(k: Keyword)
    requires k in {MaxKw, MinKw}
    ensures Pattern(k) == KeywordGen.GenPattern(Spelling(k))
  {
    match k
    case MaxKw => assert KeywordGen.GenPattern("max") == "[mM][aA][xX]";
    case MinKw => assert KeywordGen.GenPattern("min") == "[mM][iI][nN]";
  }

  lemma ConnectivePatternsGenerated(k: Keyword)
    requires k in {AndKw, OrKw}
    ensures Pattern(k) == KeywordGen.GenPattern(Spelling(k))
  {
    match k
    case AndKw => assert KeywordGen.GenPattern("and") == "[aA][nN][dD]";
    case OrKw => assert KeywordGen.GenPattern("or") == "[oO][rR]";
  }

  /** For a lower-case letter l, the bracket `[l L]` accepts c exactly
      when c equals l up to case. */
  lemma CharClassCaseInsensitive(l: char, c: char)
    requires 'a' <= l <= 'z'
    ensures var cc := KeywordGen.CharClass(l); (c == cc[1] || c == cc[2]) <==> SameUpToCase(c, l)
  {
  }

  lemma SpellingIsLower(k: Keyword)
    ensures LowerWord(Spelling(k))
  {
  }

  /** A generated pattern matches exactly the case-insensitive spellings
      of its lower-case word. */
  lemma {:induction false} GenPatternMatches(w: string, s: string)
    requires LowerWord(w)
    ensures ClassesMatch(KeywordGen.GenPattern(w), s) <==>
              |s| == |w| && forall i :: 0 <= i < |s| ==> SameUpToCase(s[i], w[i])
  {
    var p := KeywordGen.GenPattern(w);
    KeywordGen.GenPatternBlocks(w);
    if |s| == |w| {
      forall i | 0 <= i < |s| ensures (s[i] == p[4 * i + 1] || s[i] == p[4 * i + 2]) <==> SameUpToCase(s[i], w[i]) {
        assert p[4 * i..4 * i + 4] == KeywordGen.CharClass(w[i]);
        assert p[4 * i + 1] == p[4 * i..4 * i + 4][1] && p[4 * i + 2] == p[4 * i..4 * i + 4][2];
        CharClassCaseInsensitive(w[i], s[i]);
      }
    }
  }

  /** Each keyword pattern matches exactly the case-insensitive spellings
      of its word. */
  lemma KeywordMatches(k: Keyword, s: string)
    ensures ClassesMatch(Pattern(k), s) <==>
              |s| == |Spelling(k)| && forall i :: 0 <= i < |s| ==> SameUpToCase(s[i], Spelling(k)[i])
  {
    PatternIsGenerated(k);
    SpellingIsLower(k);
    GenPatternMatches(Spelling(k), s);
  }

  /** agg_kws: the aggregate a keyword token denotes. */
  function AggKeyword(k: Keyword): (r: Option<AggOp>)
    ensures r.Some? <==> k in {CountKw, SumKw, MaxKw, MinKw}
    ensures r != Some(AVG) && r != Some(NONE)
    ensures r.Some? ==>
              |AggToStr(r.value)| == |Spelling(k)| &&
              forall i :: 0 <= i < |Spelling(k)| ==> AggToStr(r.value)[i] == ToUpper(Spelling(k)[i])
  {
    match k
    case CountKw => Some(COUNT)
    case SumKw => Some(SUM)
    case MaxKw => Some(MAX)
    case MinKw => Some(MIN)
    case _ => None
  }

  /** kw_terms: the keyword terminals handed to the parser. */
  const KwTerms: seq<Keyword> := [SelectKw, AsKw, FromKw, WhereKw, OnKw, CountKw, SumKw, MaxKw, MinKw, NotKw, AndKw, OrKw]

  /** The terminal set is exactly the twelve keywords, each once. AND
      binds tighter than OR. */
  lemma KwTermsComplete(k: Keyword)
    ensures |KwTerms| == 12 && k in KwTerms
    ensures forall i, j :: 0 <= i < j < |KwTerms| ==> KwTerms[i] != KwTerms[j]
    ensures AndPrecedence > OrPrecedence
  {
  }

  /** The generator's keyword list and kw_terms differ: the generator
      lists "avg", which has no terminal, and lacks "on", which has one. */
  lemma GeneratorListDiffers()
    ensures "avg" in KeywordGen.Keywords && forall k :: k in KwTerms ==> Spelling(k) != "avg"
    ensures "on" !in KeywordGen.Keywords && Spelling(OnKw) == "on"
  {
  }
}
