/** Numeric literals (include/numeral.h): digit strings read into a
    wrapping 64-bit accumulator, signed integers with optional `+`/`-`
    prefixes and an optional `.000` tail, and the numeral alternative
    that is either an integer or a floating-point literal. */
module Numeral {
  import opened Wrappers

  const Two64: int := 0x1_0000_0000_0000_0000
  const Two63: int := 0x8000_0000_0000_0000

  predicate IsDigit(c: char) { '0' <= c <= '9' }

  predicate AllDigits(s: string) { forall i :: 0 <= i < |s| ==> IsDigit(s[i]) }

  predicate InInt64(v: int) { -Two63 <= v < Two63 }

  /** The mathematical value of a digit string read most significant
      digit first: each character contributes `c - '0'`. */
  function DigitsValue(s: string): int
  {
    if |s| == 0 then 0 else 10 * DigitsValue(s[..|s| - 1]) + (s[|s| - 1] as int - '0' as int)
  }

  /** What parse_digits returns: the same value reduced modulo 2^64,
      since the accumulator is a uint64_t. */
  function ParseDigitsValue(s: string): (r: int)
    ensures 0 <= r < Two64
  {
    DigitsValue(s) % Two64
  }

  lemma MulMod(x: int, d: int)
    ensures ((x % Two64) * 10 + d) % Two64 == (x * 10 + d) % Two64
  {
    var q := x / Two64;
    assert x == q * Two64 + x % Two64;
    assert x * 10 + d == ((x % Two64) * 10 + d) + (q * 10) * Two64;
    ModMultiple((x % Two64) * 10 + d, q * 10);
  }

  lemma ModMultiple(a: int, k: int)
    ensures (a + k * Two64) % Two64 == a % Two64
  {
  }

  /** parse_digits of the empty string is 0, and appending a character
      multiplies by ten and adds its digit, all modulo 2^64. */
  lemma ParseDigitsSnoc(s: string, c: char)
    ensures ParseDigitsValue([]) == 0
    ensures ParseDigitsValue(s + [c]) == (10 * ParseDigitsValue(s) + (c as int - '0' as int)) % Two64
  {
    assert (s + [c])[..|s + [c]| - 1] == s;
    MulMod(DigitsValue(s), c as int - '0' as int);
  }

  /** parse_digits: the loop over the characters of `digits`. */
  method ParseDigits(digits: string) returns (sum: int)
    ensures sum == ParseDigitsValue(digits)
  {
    sum := 0;
    var i := 0;
    while i < |digits|
      invariant 0 <= i <= |digits|
      invariant sum == ParseDigitsValue(digits[..i])
    {
      assert digits[..i + 1] == digits[..i] + [digits[i]];
      ParseDigitsSnoc(digits[..i], digits[i]);
      sum := (sum * 10 + (digits[i] as int - '0' as int)) % Two64;
      i := i + 1;
    }
    assert digits[..i] == digits;
  }

  function Pow10(n: nat): (r: nat)
    ensures r >= 1
  {
    if n == 0 then 1 else 10 * Pow10(n - 1)
  }

  /** A digit string of length n denotes a number below 10^n. */
  lemma {:induction false} DigitsValueBounds(s: string)
    requires AllDigits(s)
    ensures 0 <= DigitsValue(s) < Pow10(|s|)
  {
    if |s| > 0 {
      DigitsValueBounds(s[..|s| - 1]);
    }
  }

  /** A digit string whose value fits in 64 bits is read exactly. */
  lemma ParseDigitsExact(s: string)
    requires AllDigits(s) && DigitsValue(s) < Two64
    ensures ParseDigitsValue(s) == DigitsValue(s)
  {
    DigitsValueBounds(s);
  }

  /** static_cast<int64_t> of a uint64_t: the two's-complement reading. */
  function ToInt64(u: int): (r: int)
    requires 0 <= u < Two64
    ensures InInt64(r) && (r - u) % Two64 == 0
    ensures u < Two63 ==> r == u
  {
    if u < Two63 then u else u - Two64
  }

  /** integer_without_dec_pt: a digit token under any nesting of sign
      prefixes. */
  datatype IntegerWithoutDecPt = Digits(digits: string) | Minus(operand: IntegerWithoutDecPt) | Plus(operand: IntegerWithoutDecPt)

  /** integer: with or without a `.` followed by zeros. */
  datatype Integer = Whole(v: IntegerWithoutDecPt) | WithZeros(v: IntegerWithoutDecPt, zeros: string)

  /** The int64_t the integer rules compute. Negating the smallest int64_t
      overflows, which is not a constant expression: None. */
  function IntegerWithoutDecPtValue(t: IntegerWithoutDecPt): (r: Option<int>)
    ensures r.Some? ==> InInt64(r.value)
    ensures t.Digits? ==> r.Some?
  {
    match t
    case Digits(ds) => Some(ToInt64(ParseDigitsValue(ds)))
    case Minus(u) =>
      var v :- IntegerWithoutDecPtValue(u);
      if v == -Two63 then None else Some(-v)
    case Plus(u) => IntegerWithoutDecPtValue(u)
  }

  function IntegerValue(t: Integer): Option<int>
  {
    IntegerWithoutDecPtValue(t.v)
  }

  /** A `-` prefix negates and a `+` prefix is the identity. */
  lemma SignPrefixes(t: IntegerWithoutDecPt)
    ensures IntegerWithoutDecPtValue(Plus(t)) == IntegerWithoutDecPtValue(t)
    ensures IntegerWithoutDecPtValue(t).Some? && IntegerWithoutDecPtValue(t).value != -Two63 ==>
              IntegerWithoutDecPtValue(Minus(t)) == Some(-IntegerWithoutDecPtValue(t).value)
  {
    var r := IntegerWithoutDecPtValue(t);
    if r.Some? {
      var v := r.value;
      assert IntegerWithoutDecPtValue(Minus(t)) == (if v == -Two63 then None else Some(-v));
    }
  }

  /** Prefixes nest: two minus signs cancel (unless the inner value is the
      one whose negation overflows). */
  lemma DoubleMinus(t: IntegerWithoutDecPt)
    requires IntegerWithoutDecPtValue(t).Some? && IntegerWithoutDecPtValue(t).value != -Two63
    ensures IntegerWithoutDecPtValue(Minus(Minus(t))) == IntegerWithoutDecPtValue(t)
  {
    var v := IntegerWithoutDecPtValue(t).value;
    assert IntegerWithoutDecPtValue(Minus(t)) == Some(-v);
    assert -v != -Two63;
  }

  /** A plain digit token whose value fits in int64_t denotes that value. */
  lemma DigitsInRange(ds: string)
    requires AllDigits(ds) && DigitsValue(ds) < Two63
    ensures IntegerWithoutDecPtValue(Digits(ds)) == Some(DigitsValue(ds))
  {
    ParseDigitsExact(ds);
  }

  /** A `.` followed by zeros does not change the value. */
  lemma TrailingZeros(t: IntegerWithoutDecPt, zeros: string)
    ensures IntegerValue(WithZeros(t, zeros)) == IntegerValue(Whole(t))
  {
  }

  /** The token non_neg_floating_point, `[0-9]*\.0*[1-9][0-9]*`: digits, a
      point, then digits of which at least one is not zero. */
  predicate IsFloatToken(s: string)
  {
    exists p :: 0 <= p < |s| && s[p] == '.' && AllDigits(s[..p]) && AllDigits(s[p + 1..]) &&
      exists j :: p < j < |s| && s[j] != '0'
  }

  predicate AllZeros(s: string) { forall i :: 0 <= i < |s| ==> s[i] == '0' }

  /** The text of an integer with a `.000` tail is never a float token, so
      `1.00` is always read by the integer rules. */
  lemma IntegerWithZerosIsNotFloat(ds: string, zeros: string)
    requires AllDigits(ds) && AllZeros(zeros)
    ensures !IsFloatToken(ds + "." + zeros)
  {
    var s := ds + "." + zeros;
    assert forall i :: 0 <= i < |ds| ==> s[i] == ds[i];
    assert forall i :: |ds| < i < |s| ==> s[i] == zeros[i - |ds| - 1];
    // The only point is at |ds|, and everything after it is a zero.
    assert forall p :: 0 <= p < |s| && s[p] == '.' ==> p == |ds|;
  }

  /** numeral: the variant<int64_t, double> alternative. */
  datatype Numeral = IntNumeral(i: int) | FloatNumeral(f: real)

  /** numeral(integer): an integer literal in the int64_t alternative. */
  function NumeralOfInteger(t: Integer): (r: Option<Numeral>)
    ensures r.Some? <==> IntegerValue(t).Some?
    ensures r.Some? ==> r.value.IntNumeral? && r.value.i == IntegerValue(t).value
  {
    var v :- IntegerValue(t);
    Some(IntNumeral(v))
  }
}
