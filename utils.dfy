/** String helpers used when a query is split at compile time
    (include/utils.h): comma counting, ASCII upper-casing and a
    case-insensitive substring search. */
module Utils {

  /** std::string_view::npos / size_t(-1) on a 64-bit target. */
  const Npos: nat := 0xFFFF_FFFF_FFFF_FFFF

  /** count_commas: the number of ',' characters of s. */
  method CountCommas(s: string) returns (count: nat)
    ensures count == multiset(s)[',']
  {
    count := 0;
    var i := 0;
    while i < |s|
      invariant 0 <= i <= |s|
      invariant count == multiset(s[..i])[',']
    {
      assert s[..i + 1] == s[..i] + [s[i]];
      if s[i] == ',' {
        count := count + 1;
      }
      i := i + 1;
    }
    assert s[..i] == s;
  }

  predicate IsLower(ch: char) { 'a' <= ch <= 'z' }

  /** to_upper: 'a'..'z' become 'A'..'Z'; every other character is kept. */
  function ToUpper(ch: char): (r: char)
    ensures !IsLower(r)
    ensures IsLower(ch) ==> 'A' <= r <= 'Z' && r as int - 'A' as int == ch as int - 'a' as int
    ensures !IsLower(ch) ==> r == ch
  {
    if IsLower(ch) then (ch as int + ('A' as int - 'a' as int)) as char else ch
  }

  lemma ToUpperIdempotent(ch: char)
    ensures ToUpper(ToUpper(ch)) == ToUpper(ch)
  {
  }

  /** Two characters that are equal up to ASCII case. */
  predicate SameUpToCase(a: char, b: char) { ToUpper(a) == ToUpper(b) }

  /** ss occurs in s at position start, ignoring ASCII case. */
  predicate MatchesAt(s: string, ss: string, start: nat)
  {
    start + |ss| <= |s| && forall i :: 0 <= i < |ss| ==> SameUpToCase(s[start + i], ss[i])
  }

  /** substr_eq_case_insensitive: false when ss does not fit at start,
      otherwise whether every character agrees after to_upper. */
  method SubstrEqCaseInsensitive(s: string, ss: string, start: nat) returns (r: bool)
    ensures r <==> MatchesAt(s, ss, start)
  {
    if start + |ss| > |s| {
      return false;
    }
    var i := 0;
    while i < |ss|
      invariant 0 <= i <= |ss|
      invariant forall k :: 0 <= k < i ==> SameUpToCase(s[start + k], ss[k])
    {
      if ToUpper(s[start + i]) != ToUpper(ss[i]) {
        return false;
      }
      i := i + 1;
    }
    return true;
  }

  /** find_substr_case_insensitive: the least i >= pos where ss occurs in
      s (ignoring case), or Npos when there is none. The source demands
      |s| >= |ss| > 0 of its template arguments; a string shorter than
      Npos is implied by its size_t length. */
  method FindSubstrCaseInsensitive(s: string, ss: string, pos: nat) returns (r: nat)
    requires |s| >= |ss| > 0
    requires |s| < Npos
    ensures r == Npos <==> forall i :: pos <= i < |s| ==> !MatchesAt(s, ss, i)
    ensures r != Npos ==> pos <= r && r + |ss| <= |s| && MatchesAt(s, ss, r)
    ensures r != Npos ==> forall i :: pos <= i < r ==> !MatchesAt(s, ss, i)
  {
    var i := pos;
    while i < |s|
      invariant pos <= i
      invariant forall k :: pos <= k < i ==> !MatchesAt(s, ss, k)
    {
      var eq := SubstrEqCaseInsensitive(s, ss, i);
      if eq {
        return i;
      }
      i := i + 1;
    }
    return Npos;
  }
}
