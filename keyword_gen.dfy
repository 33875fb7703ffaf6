/** The generator script for keyword terminals (keyword_gen.py): for a
    keyword it builds a case-insensitive character-class pattern and the
    two C++ declarations that use it; its main block prints the list of
    terminal names and then every declaration. */
module KeywordGen {

  /** Python's str.lower / str.upper on ASCII characters. */
  function Lower(c: char): (r: char)
    ensures !('A' <= r <= 'Z')
    ensures 'A' <= c <= 'Z' ==> 'a' <= r <= 'z' && r as int - 'a' as int == c as int - 'A' as int
    ensures !('A' <= c <= 'Z') ==> r == c
  {
    if 'A' <= c <= 'Z' then (c as int - 'A' as int + 'a' as int) as char else c
  }

  function Upper(c: char): (r: char)
    ensures !('a' <= r <= 'z')
    ensures 'a' <= c <= 'z' ==> 'A' <= r <= 'Z' && r as int - 'A' as int == c as int - 'a' as int
    ensures !('a' <= c <= 'z') ==> r == c
  {
    if 'a' <= c <= 'z' then (c as int - 'a' as int + 'A' as int) as char else c
  }

  /** The bracket expression for one character: `[` lower upper `]`. The
      two inner characters are the two cases of the same letter. */
  function CharClass(c: char): (r: string)
    ensures |r| == 4 && r[0] == '[' && r[3] == ']'
    ensures r[1] == Lower(c) && r[2] == Upper(c)
    ensures Upper(r[1]) == r[2] && Lower(r[2]) == r[1]
  {
    ['[', Lower(c), Upper(c), ']']
  }

  /** gen_keyword's pattern: the character classes of kw, concatenated. */
  function GenPattern(kw: string): (r: string)
    ensures |r| == 4 * |kw|
  {
    if |kw| == 0 then "" else CharClass(kw[0]) + GenPattern(kw[1..])
  }

  /** Block i of the pattern (characters 4i to 4i+3) is the character
      class of kw[i]. */
  lemma {:induction false} GenPatternBlocks(kw: string)
    ensures forall i :: 0 <= i < |kw| ==> GenPattern(kw)[4 * i..4 * i + 4] == CharClass(kw[i])
  {
    if |kw| > 0 {
      GenPatternBlocks(kw[1..]);
      var rest := GenPattern(kw[1..]);
      assert GenPattern(kw) == CharClass(kw[0]) + rest;
      forall i | 1 <= i < |kw| ensures GenPattern(kw)[4 * i..4 * i + 4] == CharClass(kw[i]) {
        assert (CharClass(kw[0]) + rest)[4 * i..4 * i + 4] == rest[4 * (i - 1)..4 * (i - 1) + 4];
      }
    }
  }

  const DeclHead: string := "\nstatic constexpr char "
  const PatternOpen: string := "_pattern[] = \""

  /** The text gen_keyword returns: a `{kw}_pattern` character array
      holding the pattern (block i of which is the class of letter i, by
      GenPatternBlocks), then the declaration of the regex terminal. */
  function GenKeyword(kw: string): (r: string)
    ensures var head := DeclHead + kw + PatternOpen;
            |head| + 4 * |kw| <= |r| && r[..|head|] == head && r[|head|..|head| + 4 * |kw|] == GenPattern(kw) &&
            r[|head| + 4 * |kw|..] == TermDecl(kw)
  {
    PatternAt(kw, DeclHead + kw + PatternOpen, TermDecl(kw));
    DeclHead + kw + PatternOpen + GenPattern(kw) + TermDecl(kw)
  }

  /** Placed between a prefix and a tail, the pattern and each of its
      blocks sit right after the prefix, and the tail right after it. */
  lemma PatternAt(kw: string, head: string, tail: string)
    ensures var r := head + GenPattern(kw) + tail;
            |head| + 4 * |kw| <= |r| && r[..|head|] == head && r[|head|..|head| + 4 * |kw|] == GenPattern(kw) &&
            (forall i :: 0 <= i < |kw| ==> r[|head| + 4 * i..|head| + 4 * i + 4] == CharClass(kw[i])) &&
            r[|head| + 4 * |kw|..] == tail
  {
    GenPatternBlocks(kw);
    var p := GenPattern(kw);
    var r := head + p + tail;
    assert r[..|head|] == head;
    assert r[|head| + |p|..] == tail;
    MiddleSlice(head, p, tail, 0, |p|);
    assert p[0..|p|] == p;
    forall i | 0 <= i < |kw| ensures r[|head| + 4 * i..|head| + 4 * i + 4] == CharClass(kw[i]) {
      MiddleSlice(head, p, tail, 4 * i, 4 * i + 4);
    }
  }

  /** A slice of the middle part of a three-part text. */
  lemma MiddleSlice(head: string, p: string, tail: string, a: nat, b: nat)
    requires a <= b <= |p|
    ensures (head + p + tail)[|head| + a..|head| + b] == p[a..b]
  {
    var r := head + p + tail;
    assert forall k :: 0 <= k < b - a ==> r[|head| + a..|head| + b][k] == p[a..b][k];
  }

  const TermOpen: string := "\";\nstatic constexpr ctpg::regex_term<"
  const PatternName: string := "_pattern"
  const TypeClose: string := "> "
  const TermName: string := "_kw"
  const NameOpen: string := "(\""
  const NameClose: string := "\");"

  /** The rest of gen_keyword's text: it closes the pattern string and
      declares the terminal `{kw}_kw` over `{kw}_pattern`, giving it the
      name "{kw}_kw". */
  function TermDecl(kw: string): (r: string)
    ensures var p := |TermOpen|; var q := p + |kw| + |PatternName|;
            var v := q + |TypeClose|; var w := v + |kw| + |TermName|;
            var n := w + |NameOpen|; var m := n + |kw| + |TermName|;
            m <= |r| && r[..p] == TermOpen && r[p..q] == kw + PatternName &&
            r[v..w] == kw + TermName && r[n..m] == kw + TermName && r[m..] == NameClose
  {
    SevenParts(TermOpen, kw + PatternName, TypeClose, kw + TermName, NameOpen, kw + TermName, NameClose);
    TermOpen + (kw + PatternName) + TypeClose + (kw + TermName) + NameOpen + (kw + TermName) + NameClose
  }

  /** Where the parts of a seven-part text sit. */
  lemma SevenParts(a: string, b: string, c: string, d: string, e: string, f: string, g: string)
    ensures var r := a + b + c + d + e + f + g;
            var p := |a|; var q := p + |b|; var v := q + |c|; var w := v + |d|; var n := w + |e|; var m := n + |f|;
            m <= |r| && r[..p] == a && r[p..q] == b && r[v..w] == d && r[n..m] == f && r[m..] == g
  {
    var r := a + b + c + d + e + f + g;
    var p := |a|; var q := p + |b|; var v := q + |c|; var w := v + |d|; var n := w + |e|; var m := n + |f|;
    assert forall k :: 0 <= k < |a| ==> r[..p][k] == a[k];
    assert forall k :: 0 <= k < |b| ==> r[p..q][k] == b[k];
    assert forall k :: 0 <= k < |d| ==> r[v..w][k] == d[k];
    assert forall k :: 0 <= k < |f| ==> r[n..m][k] == f[k];
    assert forall k :: 0 <= k < |g| ==> r[m..][k] == g[k];
  }

  /** The keyword list of the main block. */
  const Keywords: seq<string> := ["select", "as", "from", "where", "count", "sum", "max", "min", "avg", "not", "and", "or"]

  const Separator: string := ", "

  /** ", ".join(xs). */
  function Join(xs: seq<string>): (r: string)
    ensures |xs| == 0 ==> r == ""
    ensures |xs| == 1 ==> r == xs[0]
  {
    if |xs| == 0 then "" else if |xs| == 1 then xs[0] else xs[0] + Separator + Join(xs[1..])
  }

  /** Joining one more name puts the separator and the name after the joined list:
      the names appear in list order, one separator between neighbours. */
  lemma {:induction false} JoinSnoc(xs: seq<string>, y: string)
    requires |xs| > 0
    ensures Join(xs + [y]) == Join(xs) + Separator + y
  {
    var t := (xs + [y])[1..];
    assert (xs + [y])[0] == xs[0];
    if |xs| > 1 {
      assert t == xs[1..] + [y];
      JoinSnoc(xs[1..], y);
      calc {
        Join(xs + [y]);
        xs[0] + Separator + Join(xs[1..] + [y]);
        xs[0] + Separator + (Join(xs[1..]) + Separator + y);
        (xs[0] + Separator + Join(xs[1..])) + Separator + y;
      }
    } else {
      assert t == [y];
    }
  }

  /** The terminal name of each keyword, in list order. */
  function TermNames(kws: seq<string>): (r: seq<string>)
    ensures |r| == |kws|
    ensures forall i :: 0 <= i < |kws| ==> r[i] == kws[i] + "_kw"
  {
    if |kws| == 0 then [] else [kws[0] + "_kw"] + TermNames(kws[1..])
  }

  /** The printed line of each keyword: its declaration and the newline
      print adds, in list order. */
  function Lines(kws: seq<string>): (r: seq<string>)
    ensures |r| == |kws|
  {
    seq(|kws|, i requires 0 <= i < |kws| => Line(kws[i]))
  }

  /** What print(gen_keyword(kw)) writes: the declaration and a newline. */
  function Line(kw: string): string
  {
    GenKeyword(kw) + "\n"
  }

  lemma LinesAreDeclarations(kws: seq<string>)
    ensures forall i :: 0 <= i < |kws| ==> Lines(kws)[i] == GenKeyword(kws[i]) + "\n"
  {
  }

  /** The lines, printed one after the other. */
  function Concat(ss: seq<string>): string
  {
    if |ss| == 0 then "" else ss[0] + Concat(ss[1..])
  }

  /** The concatenation of a list is that of the lines before i, line i and
      that of the lines after it. */
  lemma {:induction false} ConcatSplit(ss: seq<string>, i: nat)
    requires i < |ss|
    ensures Concat(ss) == Concat(ss[..i]) + ss[i] + Concat(ss[i + 1..])
  {
    if i > 0 {
      var t := ss[1..];
      ConcatSplit(t, i - 1);
      assert t[..i - 1] == ss[..i][1..];
      assert t[i - 1] == ss[i] && t[i..] == ss[i + 1..];
    } else {
      assert ss[1..] == ss[i + 1..];
    }
  }

  /** The text r starts with head, and after it line i of ss sits right
      after the lines before it. */
  predicate LinesAfter(r: string, head: string, ss: seq<string>)
  {
    |head| <= |r| && r[..|head|] == head &&
    forall i :: 0 <= i < |ss| ==>
      var s := |head| + |Concat(ss[..i])|;
      s + |ss[i]| <= |r| && r[s..s + |ss[i]|] == ss[i]
  }

  /** Printed after a head, the lines are laid out as LinesAfter says. */
  lemma PrintedLines(head: string, ss: seq<string>)
    ensures LinesAfter(head + Concat(ss), head, ss)
  {
    var r := head + Concat(ss);
    assert r[..|head|] == head;
    forall i | 0 <= i < |ss|
      ensures var s := |head| + |Concat(ss[..i])|;
        s + |ss[i]| <= |r| && r[s..s + |ss[i]|] == ss[i]
    {
      PrintedLine(head, ss, i);
    }
  }

  lemma PrintedLine(head: string, ss: seq<string>, i: nat)
    requires i < |ss|
    ensures var r := head + Concat(ss); var s := |head| + |Concat(ss[..i])|;
            s + |ss[i]| <= |r| && r[s..s + |ss[i]|] == ss[i]
  {
    ConcatSplit(ss, i);
    LineAt(head, Concat(ss[..i]), ss[i], Concat(ss[i + 1..]));
  }

  /** The line between a head, the text before it and the text after it. */
  lemma LineAt(head: string, before: string, line: string, after: string)
    ensures |head| + |before| + |line| <= |head + (before + line + after)|
    ensures (head + (before + line + after))[|head| + |before|..|head| + |before| + |line|] == line
  {
    var r := head + (before + line + after);
    assert forall k :: 0 <= k < |line| ==> r[|head| + |before|..|head| + |before| + |line|][k] == line[k];
  }

  /** What the main block prints: the comma-joined term names on one line,
      then the printed line of every keyword, in list order: line i comes
      right after the lines of the keywords before it. */
  function MainOutput(kws: seq<string>): (r: string)
    ensures LinesAfter(r, Join(TermNames(kws)) + "\n", Lines(kws))
  {
    var head := Join(TermNames(kws)) + "\n";
    PrintedLines(head, Lines(kws));
    head + Concat(Lines(kws))
  }

  predicate NoComma(s: string) { forall i :: 0 <= i < |s| ==> s[i] != ',' }

  /** When no name contains a comma, the joined line carries exactly one
      comma between each pair of neighbours. */
  lemma {:induction false} JoinCommas(xs: seq<string>)
    requires |xs| > 0
    requires forall i :: 0 <= i < |xs| ==> NoComma(xs[i])
    ensures multiset(Join(xs))[','] == |xs| - 1
  {
    if |xs| > 1 {
      JoinCommas(xs[1..]);
      NoCommaCount(xs[0]);
      assert Join(xs) == xs[0] + Separator + Join(xs[1..]);
      assert multiset(xs[0] + Separator + Join(xs[1..])) == multiset(xs[0]) + multiset(Separator) + multiset(Join(xs[1..]));
      assert multiset(Separator)[','] == 1;
    } else {
      NoCommaCount(xs[0]);
    }
  }

  lemma {:induction false} NoCommaCount(s: string)
    requires NoComma(s)
    ensures multiset(s)[','] == 0
  {
    if |s| > 0 {
      assert s == [s[0]] + s[1..];
      NoCommaCount(s[1..]);
      assert multiset(s) == multiset([s[0]]) + multiset(s[1..]);
    }
  }

  lemma KeywordsHaveNoComma()
    ensures forall i :: 0 <= i < |Keywords| ==> NoComma(Keywords[i] + "_kw")
  {
    forall i | 0 <= i < |Keywords| ensures NoComma(Keywords[i] + "_kw") {
      var k := Keywords[i];
      assert forall j :: 0 <= j < |k| ==> 'a' <= k[j] <= 'z';
    }
  }

  /** The first printed line names the terminals, in list order,
      separated by one comma fewer than there are keywords, whenever no
      keyword holds a comma. */
  lemma HeaderLine(kws: seq<string>)
    requires |kws| > 0 && forall i :: 0 <= i < |kws| ==> NoComma(kws[i] + "_kw")
    ensures multiset(Join(TermNames(kws)))[','] == |kws| - 1
  {
    var names := TermNames(kws);
    assert forall i :: 0 <= i < |names| ==> names[i] == kws[i] + "_kw";
    assert forall i :: 0 <= i < |names| ==> NoComma(names[i]);
    JoinCommas(names);
  }

  /** The script's own header line: eleven commas between twelve names. */
  lemma KeywordsHeaderLine()
    ensures multiset(Join(TermNames(Keywords)))[','] == 11
  {
    KeywordsHaveNoComma();
    HeaderLine(Keywords);
  }
}
