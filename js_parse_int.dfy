/**
 * `parseInt(s, 10)`: skip leading white space, take an optional sign, read
 * the longest run of decimal digits; no digits at all gives NaN (`None`).
 */
module JsParseInt {
  import opened Wrappers
  import opened JsStrings

  predicate IsDigit(c: char) {
    '0' <= c <= '9'
  }

  predicate AllDigits(d: string) {
    forall i :: 0 <= i < |d| ==> IsDigit(d[i])
  }

  function DigitValue(c: char): (n: nat)
    requires IsDigit(c)
    ensures n < 10
  {
    (c as int) - ('0' as int)
  }

  /** The integer a string of decimal digits denotes, most significant first. */
  function DigitsValue(d: string): nat
    requires AllDigits(d)
    decreases |d|
  {
    if |d| == 0 then 0 else DigitsValue(d[..|d| - 1]) * 10 + DigitValue(d[|d| - 1])
  }

  /** The longest prefix of `s` made of decimal digits. */
  function DigitPrefix(s: string): (z: string)
    ensures AllDigits(z) && |z| <= |s| && z == s[..|z|]
    ensures |z| < |s| ==> !IsDigit(s[|z|])
    decreases |s|
  {
    if |s| > 0 && IsDigit(s[0]) then [s[0]] + DigitPrefix(s[1..]) else ""
  }

  /**
   * What `parseInt` returns: NaN, or an integer kept as sign and magnitude,
   * since `parseInt("-0")` is the number -0, distinct from 0.
   */
  datatype IntResult = NotANumber | Parsed(negative: bool, magnitude: nat)

  /** The mathematical value of a parsed integer (-0 and 0 both denote 0). */
  function IntValue(p: IntResult): int
    requires p.Parsed?
  {
    if p.negative then -(p.magnitude as int) else p.magnitude
  }

  /**
   * `parseInt(s, 10)`: a text whose first character is a digit gives a
   * non-negative number, and one with no character that is a digit gives NaN.
   */
  function ParseInt(s: string): (r: IntResult)
    ensures |s| > 0 && IsDigit(s[0]) ==> r.Parsed? && !r.negative
    ensures (forall i :: 0 <= i < |s| ==> !IsDigit(s[i])) ==> r.NotANumber?
  {
    var t := TrimStart(s);
    assert |t| > 0 ==> t[0] == s[|s| - |t|];
    assert |t| > 1 ==> t[1..][0] == s[|s| - |t| + 1];
    ParseSigned(t)
  }

  /** The part of `parseInt` after the leading white space is gone. */
  function ParseSigned(t: string): IntResult {
    if |t| > 0 && t[0] == '-' then WithSign(true, ParseDigits(t[1..]))
    else if |t| > 0 && t[0] == '+' then WithSign(false, ParseDigits(t[1..]))
    else WithSign(false, ParseDigits(t))
  }

  /** The value of the leading digits of `u`, or `None` when it has none. */
  function ParseDigits(u: string): Option<nat> {
    var z := DigitPrefix(u);
    if |z| == 0 then None else Some(DigitsValue(z))
  }

  function WithSign(negative: bool, m: Option<nat>): IntResult {
    match m
    case None => NotANumber
    case Some(k) => Parsed(negative, k)
  }

  /** Digits followed by anything that is not a digit: the digits are the prefix. */
  lemma {:induction false} DigitPrefixOf(d: string, rest: string)
    requires AllDigits(d)
    requires |rest| == 0 || !IsDigit(rest[0])
    ensures DigitPrefix(d + rest) == d
    decreases |d|
  {
    if |d| > 0 {
      assert (d + rest)[1..] == d[1..] + rest;
      DigitPrefixOf(d[1..], rest);
      assert [d[0]] + d[1..] == d;
    }
  }

  /**
   * Leading white space, an optional sign and digits, followed by anything
   * that does not start with a digit, parse as the signed value of the digits.
   */
  lemma ParseIntSigned(w: string, sign: string, d: string, rest: string)
    requires AllWhitespace(w)
    requires sign == "" || sign == "+" || sign == "-"
    requires |d| > 0 && AllDigits(d)
    requires |rest| == 0 || !IsDigit(rest[0])
    ensures ParseInt(w + (sign + (d + rest))) == Parsed(sign == "-", DigitsValue(d))
  {
    var v := d + rest;
    ParseDigitsOf(d, rest);
    assert v[0] == d[0];
    ParseSignedOf(sign, v);
    ParseIntAfterWhitespace(w, sign + v);
  }

  lemma ParseSignedOf(sign: string, v: string)
    requires sign == "" || sign == "+" || sign == "-"
    requires |v| > 0 && IsDigit(v[0])
    ensures |sign + v| > 0 && !IsWhitespace((sign + v)[0])
    ensures ParseSigned(sign + v) == WithSign(sign == "-", ParseDigits(v))
  {
    var u := sign + v;
    if sign == "" {
      assert u == v;
    } else {
      assert u[0] == sign[0] && u[1..] == v;
    }
  }

  lemma ParseIntAfterWhitespace(w: string, u: string)
    requires AllWhitespace(w)
    requires |u| > 0 && !IsWhitespace(u[0])
    ensures ParseInt(w + u) == ParseSigned(u)
  {
    TrimStartDropsWhitespace(w, u);
  }

  lemma ParseDigitsOf(d: string, rest: string)
    requires |d| > 0 && AllDigits(d)
    requires |rest| == 0 || !IsDigit(rest[0])
    ensures ParseDigits(d + rest) == Some(DigitsValue(d))
  {
    DigitPrefixOf(d, rest);
  }

  lemma TrimStartClean(u: string)
    requires |u| > 0 && !IsWhitespace(u[0])
    ensures TrimStart(u) == u
  {
  }

  /** Unsigned digits followed by a non-digit parse as their value. */
  lemma ParseIntDigits(d: string, rest: string)
    requires |d| > 0 && AllDigits(d)
    requires |rest| == 0 || !IsDigit(rest[0])
    ensures ParseInt(d + rest) == Parsed(false, DigitsValue(d))
  {
    var u := d + rest;
    assert u[0] == d[0];
    TrimStartClean(u);
    assert ParseSigned(u) == WithSign(false, ParseDigits(u));
    ParseDigitsOf(d, rest);
  }

  /** A string of digits alone parses as its value. */
  lemma ParseIntAllDigits(d: string)
    requires |d| > 0 && AllDigits(d)
    ensures ParseInt(d) == Parsed(false, DigitsValue(d))
  {
    ParseIntDigits(d, []);
    assert d + [] == d;
  }

  /** A string whose first character is neither white space, a sign nor a digit is NaN. */
  lemma ParseIntNonNumeric(s: string)
    requires |s| == 0 || (!IsWhitespace(s[0]) && !IsDigit(s[0]) && s[0] != '-' && s[0] != '+')
    ensures ParseInt(s) == NotANumber
  {
  }

  /**
   * Leading white space and an optional sign followed by anything that does
   * not start with a digit give NaN (`"- 5"`, `"+-5"`, `" x5"`); with no sign,
   * what follows is not more white space or a sign, which would be read first.
   */
  lemma ParseIntNoDigits(w: string, sign: string, rest: string)
    requires AllWhitespace(w)
    requires sign == "" || sign == "+" || sign == "-"
    requires |rest| == 0 || !IsDigit(rest[0])
    requires sign == "" && |rest| > 0 ==> !IsWhitespace(rest[0]) && rest[0] != '+' && rest[0] != '-'
    ensures ParseInt(w + (sign + rest)) == NotANumber
  {
    var u := sign + rest;
    if sign == "" {
      assert u == rest;
    } else {
      assert u[0] == sign[0] && u[1..] == rest;
    }
    assert DigitPrefix(rest) == "";
    assert ParseSigned(u) == NotANumber;
    TrimStartDropsWhitespace(w, u);
  }

  /** `"- 5"`, the low bound `trim` leaves of `"- 5 to 9"`, is NaN. */
  lemma SpacedSignExample()
    ensures ParseInt("- 5") == NotANumber
  {
    ParseIntNoDigits("", "-", " 5");
    assert "" + ("-" + " 5") == "- 5";
  }

  function DigitChar(n: nat): (c: char)
    requires n < 10
    ensures IsDigit(c) && DigitValue(c) == n
  {
    (('0' as int) + n) as char
  }

  /** The decimal numeral of `n`, without leading zeros. */
  function Decimal(n: nat): (d: string)
    ensures |d| > 0 && AllDigits(d)
  {
    if n < 10 then [DigitChar(n)] else Decimal(n / 10) + [DigitChar(n % 10)]
  }

  /** The digits of a numeral denote the number written. */
  lemma {:induction false} DecimalValue(n: nat)
    ensures DigitsValue(Decimal(n)) == n
  {
    if n >= 10 {
      DecimalValue(n / 10);
      var d := Decimal(n);
      assert d[..|d| - 1] == Decimal(n / 10);
    }
  }

  /** `parseInt` reads back every decimal numeral, with or without a minus sign. */
  lemma ParseIntDecimal(n: nat)
    ensures ParseInt(Decimal(n)) == Parsed(false, n)
    ensures ParseInt("-" + Decimal(n)) == Parsed(true, n)
  {
    var d := Decimal(n);
    DecimalValue(n);
    ParseIntAllDigits(d);
    ParseIntNegative(d);
  }

  /** A minus sign followed by digits alone parses as the negated value. */
  lemma ParseIntNegative(d: string)
    requires |d| > 0 && AllDigits(d)
    ensures ParseInt("-" + d) == Parsed(true, DigitsValue(d))
  {
    ParseDigitsAll(d);
    ParseSignedOf("-", d);
    TrimStartClean("-" + d);
  }

  lemma ParseDigitsAll(d: string)
    requires |d| > 0 && AllDigits(d)
    ensures ParseDigits(d) == Some(DigitsValue(d))
  {
    ParseDigitsOf(d, []);
    assert d + [] == d;
  }
}
