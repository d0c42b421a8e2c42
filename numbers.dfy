/**
 * Decimal numbers as text: the rendering of a non-negative integer (string
 * concatenation of a `number`) and JavaScript's `Number(string)` on decimal
 * notation, with `None` standing for `NaN`.
 */
module Numbers {
  import opened Wrappers
  import opened Text

  predicate IsDigit(c: char) {
    '0' <= c <= '9'
  }

  predicate AllDigits(s: string) {
    forall i :: 0 <= i < |s| ==> IsDigit(s[i])
  }

  function DigitValue(c: char): nat
    requires IsDigit(c)
  {
    (c as int) - ('0' as int)
  }

  function DigitChar(k: nat): (c: char)
    requires k < 10
    ensures IsDigit(c) && DigitValue(c) == k
  {
    ('0' as int + k) as char
  }

  /** The value of a digit string, most significant digit first. */
  function DigitsValue(s: string): nat
    requires AllDigits(s)
  {
    if s == [] then 0 else 10 * DigitsValue(s[..|s| - 1]) + DigitValue(s[|s| - 1])
  }

  function Pow10(n: nat): (p: nat)
    ensures p >= 1
  {
    if n == 0 then 1 else 10 * Pow10(n - 1)
  }

  /** The decimal rendering of `n`: digits only, no leading zero, and it reads back as `n`. */
  function NatToString(n: nat): (s: string)
    ensures |s| >= 1 && AllDigits(s)
    ensures DigitsValue(s) == n
    ensures |s| > 1 ==> s[0] != '0'
  {
    if n < 10 then [DigitChar(n)]
    else
      var t := NatToString(n / 10);
      var s := t + [DigitChar(n % 10)];
      assert s[..|s| - 1] == t;
      s
  }

  /** Digits followed by an optional fraction; at least one digit. */
  function ParseUnsigned(s: string): Option<real> {
    var parts := Split(s, '.');
    if |parts| == 1 then
      if parts[0] != [] && AllDigits(parts[0]) then Some(DigitsValue(parts[0]) as real) else None
    else if |parts| == 2 then
      if AllDigits(parts[0]) && AllDigits(parts[1]) && (parts[0] != [] || parts[1] != []) then
        Some(DigitsValue(parts[0]) as real + DigitsValue(parts[1]) as real / Pow10(|parts[1]|) as real)
      else None
    else None
  }

  /**
   * `Number(s)` for decimal notation: surrounding whitespace is ignored, a blank
   * string is 0, an optional sign precedes the digits.
   */
  function ParseNumber(s: string): Option<real> {
    var t := Trim(s);
    if t == [] then Some(0.0)
    else if t[0] == '-' then
      match ParseUnsigned(t[1..])
      case Some(v) => Some(-v)
      case None => None
    else if t[0] == '+' then ParseUnsigned(t[1..])
    else ParseUnsigned(t)
  }

  /** `Number.isInteger` on a parsed value. */
  predicate IsInteger(v: real) {
    v == v.Floor as real
  }

  /** No digit is whitespace. */
  lemma DigitNotWhitespace(c: char)
    requires IsDigit(c)
    ensures !IsWhitespace(c)
  {
  }

  lemma DigitsTrimmed(s: string)
    requires |s| >= 1 && AllDigits(s)
    ensures Trim(s) == s
  {
    DigitNotWhitespace(s[0]);
    DigitNotWhitespace(s[|s| - 1]);
    TrimIdentity(s);
  }

  /** A run of digits without a point parses as the integer it spells. */
  lemma ParseDigits(s: string)
    requires |s| >= 1 && AllDigits(s)
    ensures ParseUnsigned(s) == Some(DigitsValue(s) as real)
  {
    assert '.' !in s by {
      forall i | 0 <= i < |s|
        ensures s[i] != '.'
      {
        assert IsDigit(s[i]);
      }
    }
    SplitNoSeparator(s, '.');
  }

  /** Rendering a non-negative integer and parsing it back gives the integer. */
  lemma ParseNatToString(n: nat)
    ensures ParseNumber(NatToString(n)) == Some(n as real)
  {
    var s := NatToString(n);
    DigitsTrimmed(s);
    ParseDigits(s);
    assert s[0] != '-' && s[0] != '+' by { assert IsDigit(s[0]); }
  }

  /** A negative integer rendered with a leading minus sign parses back too. */
  lemma ParseNegatedNatToString(n: nat)
    ensures ParseNumber("-" + NatToString(n)) == Some((-(n as int)) as real)
  {
    var d := NatToString(n);
    var s := "-" + d;
    NegatedTrimmed(n);
    assert s[1..] == d;
    ParseDigits(d);
  }

  /** A rendered negative integer is not blank, has nothing to trim and parses back. */
  lemma NegatedEntry(n: nat)
    ensures var s := "-" + NatToString(n);
            s != [] && Trim(s) == s && ParseNumber(s) == Some((-(n as int)) as real)
  {
    NegatedTrimmed(n);
    ParseNegatedNatToString(n);
  }

  /** A minus sign followed by digits has no whitespace to trim. */
  lemma NegatedTrimmed(n: nat)
    ensures Trim("-" + NatToString(n)) == "-" + NatToString(n)
  {
    var d := NatToString(n);
    var s := "-" + d;
    assert s[|s| - 1] == d[|d| - 1];
    DigitNotWhitespace(d[|d| - 1]);
    assert IsTrimmed(s);
    TrimIdentity(s);
  }

  /** A blank entry is the number 0, not `NaN`. */
  lemma ParseBlank(s: string)
    requires forall i :: 0 <= i < |s| ==> IsWhitespace(s[i])
    ensures ParseNumber(s) == Some(0.0)
  {
    TrimHead(s);
  }

  /** A word is not a number. */
  lemma ParseWord()
    ensures ParseNumber("x") == None
  {
    var s := "x";
    assert IsTrimmed(s);
    TrimIdentity(s);
    SplitNoSeparator(s, '.');
  }
}
