/**
 * `extractWindSpeed` of frontend/src/lib/utils.js: free text such as
 * "10 to 20 mph" or "15 mph" to a number of miles per hour.
 */
module WindSpeed {
  import opened Wrappers
  import opened JsValues
  import opened JsStrings
  import opened JsParseInt

  /** `!windData` for an absent (undefined or null) or string argument. */
  predicate Falsy(windData: Option<string>) {
    windData.None? || windData.value == ""
  }

  /** The number a `parseInt` result is in arithmetic (-0 behaves as 0). */
  function ToNumber(p: IntResult): (n: Num)
    ensures n.NaN? <==> p.NotANumber?
    ensures p.Parsed? ==> n.v == IntValue(p) as real
  {
    match p
    case NotANumber => NaN
    case Parsed(_, _) => Val(IntValue(p) as real)
  }

  /** The low bound of a range: the text before the first "to", trimmed. */
  function LowBound(s: string): IntResult
    requires Includes(s, "to")
  {
    ParseInt(Trim(Split(s, "to")[0]))
  }

  /**
   * The high bound of a range: the text between the first and the second
   * "to", trimmed, up to its first space.
   */
  function HighBound(s: string): IntResult
    requires Includes(s, "to")
  {
    SplitCount(s, "to");
    ParseInt(Split(Trim(Split(s, "to")[1]), " ")[0])
  }

  /** A single value: the text up to its first space. */
  function SingleValue(s: string): IntResult {
    ParseInt(Split(s, " ")[0])
  }

  /** `(low + high) / 2`. */
  function Mean(low: IntResult, high: IntResult): Num {
    Div(Add(ToNumber(low), ToNumber(high)), 2.0)
  }

  /**
   * `extractWindSpeed(windData)`: 0 for a falsy argument; otherwise NaN or
   * a whole number of miles per hour, or, from a range, a whole number or
   * a half.
   */
  function ExtractWindSpeed(windData: Option<string>): (r: Num)
    ensures Falsy(windData) ==> r == Val(0.0)
    ensures WholeOrHalf(r)
    ensures !(windData.Some? && Includes(windData.value, "to")) ==> Whole(r)
  {
    if Falsy(windData) then
      WholeZero();
      Val(0.0)
    else
      var s := windData.value;
      if Includes(s, "to") then
        MeanHalf(LowBound(s), HighBound(s));
        Mean(LowBound(s), HighBound(s))
      else
        ToNumberWhole(SingleValue(s));
        ToNumber(SingleValue(s))
  }

  /** `k` halves. */
  function Halves(k: int): real {
    k as real / 2.0
  }

  /** NaN, or a whole number. */
  ghost predicate Whole(n: Num) {
    n.Val? ==> exists k: int :: n.v == Halves(2 * k)
  }

  /** NaN, or a multiple of one half. */
  ghost predicate WholeOrHalf(n: Num) {
    n.Val? ==> exists k: int :: n.v == Halves(k)
  }

  lemma WholeZero()
    ensures Whole(Val(0.0)) && WholeOrHalf(Val(0.0))
  {
    assert Val(0.0).v == Halves(2 * 0);
    assert Val(0.0).v == Halves(0);
  }

  /** A parsed integer is a whole number, or NaN. */
  lemma ToNumberWhole(p: IntResult)
    ensures Whole(ToNumber(p)) && WholeOrHalf(ToNumber(p))
  {
    if p.Parsed? {
      var k := IntValue(p);
      assert ToNumber(p).v == Halves(2 * k);
    }
  }

  /** The mean of two parsed integers is a whole number or a half, or NaN. */
  lemma MeanHalf(p: IntResult, q: IntResult)
    ensures WholeOrHalf(Mean(p, q))
  {
    MeanOfParsed(p, q);
    if p.Parsed? && q.Parsed? {
      var k := IntValue(p) + IntValue(q);
      assert Mean(p, q).v == Halves(k);
    }
  }

  lemma ExtractRange(s: string)
    requires Includes(s, "to")
    ensures ExtractWindSpeed(Some(s)) == Mean(LowBound(s), HighBound(s))
  {
  }

  lemma ExtractSingle(s: string)
    requires s != "" && !Includes(s, "to")
    ensures ExtractWindSpeed(Some(s)) == ToNumber(SingleValue(s))
  {
  }

  /** An absent or empty text gives 0, not NaN. */
  lemma FalsyIsZero(windData: Option<string>)
    requires Falsy(windData)
    ensures ExtractWindSpeed(windData) == Val(0.0)
  {
  }

  /** No character of a string of digits starts "to" or is a space. */
  lemma DigitsFreeOfSeparators(d: string)
    requires AllDigits(d)
    ensures !Includes(d, "to") && !Includes(d, " ")
    ensures forall i :: 0 <= i < |d| ==> d[i] != 't' && d[i] != ' '
  {
    NotIncludedWithoutFirstChar(d, "to");
    NotIncludedWithoutFirstChar(d, " ");
  }

  /** Digits followed by nothing or by a space are the first space-separated token. */
  lemma FirstTokenOfDigits(b: string, tail: string)
    requires AllDigits(b)
    requires |tail| == 0 || tail[0] == ' '
    ensures Split(b + tail, " ")[0] == b
  {
    DigitsFreeOfSeparators(b);
    SeparatorsUnbordered();
    if |tail| > 0 {
      assert tail[..1] == " ";
    }
    FirstPiece(b, " ", tail);
  }

  /**
   * The decimal numeral of n, with or without a minus sign, is read
   * back by `parseInt` as the number n, or -n.
   */
  lemma NumeralNumber(n: nat)
    ensures ToNumber(ParseInt(Decimal(n))) == Val(n as real)
    ensures ToNumber(ParseInt("-" + Decimal(n))) == Val(-(n as real))
  {
    ParseIntDecimal(n);
    NumberOfParsed(ParseInt(Decimal(n)), false, n);
    NumberOfParsed(ParseInt("-" + Decimal(n)), true, n);
  }

  lemma NumberOfParsed(p: IntResult, negative: bool, k: nat)
    requires p == Parsed(negative, k)
    ensures ToNumber(p) == Val(if negative then -(k as real) else k as real)
  {
  }

  lemma ToNumberUnsigned(k: nat)
    ensures ToNumber(Parsed(false, k)) == Val(k as real)
  {
  }

  /** The mean of two parsed bounds. */
  lemma MeanOfParsed(p: IntResult, q: IntResult)
    ensures p.Parsed? && q.Parsed? ==> Mean(p, q) == Val((IntValue(p) + IntValue(q)) as real / 2.0)
    ensures p.NotANumber? || q.NotANumber? ==> Mean(p, q) == NaN
  {
  }

  lemma SingleValueIs(s: string, t: string)
    requires Split(s, " ")[0] == t
    ensures SingleValue(s) == ParseInt(t)
  {
  }

  /** Digits, a space and text free of "to" do not include "to". */
  lemma DigitsSpaceTextFree(d: string, u: string)
    requires AllDigits(d)
    requires !Includes(u, "to")
    ensures !Includes(d + (" " + u), "to")
  {
    DigitsFreeOfSeparators(d);
    assert forall i :: 0 <= i < |d + " "| ==> (d + " ")[i] != 't';
    NotIncludedConcat(d + " ", "to", u);
    assert d + (" " + u) == (d + " ") + u;
  }

  /** `"<digits> <anything without 'to'>"` gives exactly the value of the digits. */
  lemma SingleValueText(d: string, u: string)
    requires |d| > 0 && AllDigits(d)
    requires !Includes(u, "to")
    ensures ExtractWindSpeed(Some(d + (" " + u))) == Val(DigitsValue(d) as real)
  {
    var s := d + (" " + u);
    DigitsSpaceTextFree(d, u);
    FirstTokenOfDigits(d, " " + u);
    SingleValueIs(s, d);
    ParseIntAllDigits(d);
    ToNumberUnsigned(DigitsValue(d));
    ExtractSingle(s);
  }

  /** Digits glued to a unit with no space and no "to" ("20mph", "15kt") give the digits' value. */
  lemma GluedUnitText(d: string, unit: string)
    requires |d| > 0 && AllDigits(d)
    requires |unit| == 0 || !IsDigit(unit[0])
    requires forall i :: 0 <= i < |unit| ==> unit[i] != ' '
    requires !Includes(unit, "to")
    ensures ExtractWindSpeed(Some(d + unit)) == Val(DigitsValue(d) as real)
  {
    var s := d + unit;
    GluedFree(d, unit);
    SplitFree(s, " ");
    SingleValueIs(s, s);
    ParseIntDigits(d, unit);
    ToNumberUnsigned(DigitsValue(d));
    ExtractSingle(s);
  }

  lemma GluedFree(d: string, unit: string)
    requires |d| > 0 && AllDigits(d)
    requires forall i :: 0 <= i < |unit| ==> unit[i] != ' '
    requires !Includes(unit, "to")
    ensures !Includes(d + unit, "to") && !Includes(d + unit, " ")
  {
    var s := d + unit;
    DigitsFreeOfSeparators(d);
    NotIncludedConcat(d, "to", unit);
    assert forall i :: 0 <= i < |s| ==> s[i] != ' ';
    NotIncludedWithoutFirstChar(s, " ");
  }

  /**
   * A minus sign is not rejected: `"-<digits> <text without 'to'>"` gives
   * the number `parseInt` makes of the negated digits.
   */
  lemma NegativeText(d: string, u: string)
    requires |d| > 0 && AllDigits(d)
    requires !Includes(u, "to")
    ensures ExtractWindSpeed(Some("-" + d + " " + u)) == ToNumber(Parsed(true, DigitsValue(d)))
  {
    var x := "-" + d;
    var s := x + " " + u;
    NegativeFree(d, u);
    NegativeFirstToken(d, u);
    SingleValueIs(s, x);
    ParseIntNegative(d);
    ExtractSingle(s);
  }

  lemma NegativeFirstToken(d: string, u: string)
    requires AllDigits(d)
    ensures Split(("-" + d) + " " + u, " ")[0] == "-" + d
  {
    var x := "-" + d;
    DigitsFreeOfSeparators(d);
    assert forall i :: 0 <= i < |x| ==> x[i] != ' ';
    NotIncludedWithoutFirstChar(x, " ");
    SeparatorsUnbordered();
    SplitAfterFree(x, " ", u);
  }

  lemma NegativeFree(d: string, u: string)
    requires AllDigits(d)
    requires !Includes(u, "to")
    ensures !Includes(("-" + d) + " " + u, "to")
  {
    var x := "-" + d;
    DigitsFreeOfSeparators(d);
    assert forall i :: 0 <= i < |x + " "| ==> (x + " ")[i] != 't';
    NotIncludedConcat(x + " ", "to", u);
  }

  /** A text with no "to" that starts with a space has an empty first token, which gives NaN. */
  lemma LeadingSpaceText(u: string)
    requires !Includes(u, "to")
    ensures ExtractWindSpeed(Some(" " + u)) == NaN
  {
    var s := " " + u;
    assert forall i :: 0 <= i < |" "| ==> " "[i] != 't';
    NotIncludedConcat(" ", "to", u);
    SeparatorsUnbordered();
    NotIncludedWithoutFirstChar([], " ");
    assert s == [] + " " + u;
    SplitAfterFree([], " ", u);
    SingleValueIs(s, []);
    ParseIntNonNumeric([]);
    ExtractSingle(s);
  }

  /**
   * A text starting with neither white space, a sign nor a digit ("Calm")
   * gives NaN: without "to" its first token does not parse, and with "to"
   * its low bound does not.
   */
  lemma NonNumericText(s: string)
    requires |s| > 0 && !IsWhitespace(s[0]) && !IsDigit(s[0]) && s[0] != '-' && s[0] != '+'
    ensures ExtractWindSpeed(Some(s)) == NaN
  {
    if Includes(s, "to") {
      var x := Split(s, "to")[0];
      SplitFirstIsPrefix(s, "to");
      NonNumericTrimmed(s, x);
      LowBoundIs(s, x);
      RangeNaN(s);
    } else {
      var t := Split(s, " ")[0];
      SplitFirstIsPrefix(s, " ");
      if |t| > 0 {
        assert t[0] == s[0];
      }
      SingleValueIs(s, t);
      ParseIntNonNumeric(t);
      ExtractSingle(s);
    }
  }

  /** A prefix of such a text still does not parse once trimmed. */
  lemma NonNumericTrimmed(s: string, x: string)
    requires |s| > 0 && !IsWhitespace(s[0]) && !IsDigit(s[0]) && s[0] != '-' && s[0] != '+'
    requires |x| <= |s| && x == s[..|x|]
    ensures ParseInt(Trim(x)) == NotANumber
  {
    var t := Trim(x);
    if |x| > 0 {
      assert x[0] == s[0];
      TrimStartClean(x);
      assert TrimStart(x) == x;
    }
    if |t| > 0 {
      assert t[0] == s[0];
    }
    ParseIntNonNumeric(t);
  }

  /** In a range, a bound that does not parse makes the whole result NaN. */
  lemma RangeNaN(s: string)
    requires Includes(s, "to")
    requires LowBound(s).NotANumber? || HighBound(s).NotANumber?
    ensures ExtractWindSpeed(Some(s)) == NaN
  {
    ExtractRange(s);
    MeanNaN(ExtractWindSpeed(Some(s)), LowBound(s), HighBound(s));
  }

  lemma MeanNaN(e: Num, p: IntResult, q: IntResult)
    requires e == Mean(p, q) && (p.NotANumber? || q.NotANumber?)
    ensures e == NaN
  {
    MeanOfParsed(p, q);
  }

  /** The pieces of `"<a> to <b> <u>"` split at "to". */
  lemma RangePieces(a: string, b: string, u: string)
    requires AllDigits(a)
    requires AllDigits(b)
    requires !Includes(u, "to")
    ensures Includes(a + " to " + b + " " + u, "to")
    ensures Split(a + " to " + b + " " + u, "to") == [a + " ", " " + b + " " + u]
  {
    DigitsSpaceFree(a);
    SpaceDigitsTextFree(b, u);
    SeparatorsUnbordered();
    RangeShape(a, b, u);
    SplitTwo(a + " to " + b + " " + u, a + " ", "to", " " + b + " " + u);
  }

  lemma DigitsSpaceFree(a: string)
    requires AllDigits(a)
    ensures !Includes(a + " ", "to")
  {
    var x := a + " ";
    DigitsFreeOfSeparators(a);
    assert forall i :: 0 <= i < |x| ==> x[i] != 't';
    NotIncludedWithoutFirstChar(x, "to");
  }

  lemma SpaceDigitsTextFree(b: string, u: string)
    requires AllDigits(b)
    requires !Includes(u, "to")
    ensures !Includes(" " + b + " " + u, "to")
  {
    DigitsSpaceTextFree(b, u);
    assert forall i :: 0 <= i < |" "| ==> " "[i] != 't';
    NotIncludedConcat(" ", "to", b + (" " + u));
    assert " " + (b + (" " + u)) == " " + b + " " + u;
  }

  lemma RangeShape(a: string, b: string, u: string)
    ensures a + " to " + b + " " + u == (a + " ") + "to" + (" " + b + " " + u)
  {
  }

  lemma LowBoundIs(s: string, x: string)
    requires Includes(s, "to") && Split(s, "to")[0] == x
    ensures LowBound(s) == ParseInt(Trim(x))
  {
  }

  lemma HighBoundIs(s: string, y: string)
    requires Includes(s, "to") && |Split(s, "to")| >= 2 && Split(s, "to")[1] == y
    ensures HighBound(s) == ParseInt(Split(Trim(y), " ")[0])
  {
  }

  /** The text after "to" trims to its digits and their tail; the first token is the digits. */
  lemma HighTokenOf(y: string, b: string, u: string)
    requires |b| > 0 && AllDigits(b)
    requires y == " " + (b + (" " + u))
    ensures Split(Trim(y), " ")[0] == b
  {
    var q := b + (" " + u);
    assert !IsWhitespace(q[0]);
    AllWhitespaceSpace();
    TrimStartDropsWhitespace(" ", q);
    var t := TrimEnd(q);
    assert q[|b| - 1] == b[|b| - 1];
    assert |t| >= |b|;
    assert t == b + q[|b|..|t|];
    assert |t| > |b| ==> q[|b|..|t|][0] == ' ';
    FirstTokenOfDigits(b, q[|b|..|t|]);
  }

  lemma SpaceShape(b: string, u: string)
    ensures " " + b + " " + u == " " + (b + (" " + u))
  {
  }

  lemma AllWhitespaceSpace()
    ensures AllWhitespace(" ")
  {
  }

  lemma LowTokenOf(a: string)
    requires |a| > 0 && AllDigits(a)
    ensures Trim(a + " ") == a
  {
    AllWhitespaceSpace();
    TrimAround([], a, " ");
    assert [] + a + " " == a + " ";
  }

  /** `"<a> to <b> <anything without 'to'>"` gives exactly (a + b) / 2. */
  lemma RangeText(a: string, b: string, u: string)
    requires |a| > 0 && AllDigits(a)
    requires |b| > 0 && AllDigits(b)
    requires !Includes(u, "to")
    ensures ExtractWindSpeed(Some(a + " to " + b + " " + u)) ==
      Mean(Parsed(false, DigitsValue(a)), Parsed(false, DigitsValue(b)))
  {
    var s := a + " to " + b + " " + u;
    RangePieces(a, b, u);
    RangeBounds(s, a, b, u);
    RangeOfParsed(s, DigitsValue(a), DigitsValue(b));
  }

  /** The same, as a number of miles per hour. */
  lemma RangeTextValue(a: string, b: string, u: string)
    requires |a| > 0 && AllDigits(a)
    requires |b| > 0 && AllDigits(b)
    requires !Includes(u, "to")
    ensures ExtractWindSpeed(Some(a + " to " + b + " " + u)) ==
      Val((DigitsValue(a) + DigitsValue(b)) as real / 2.0)
  {
    RangeText(a, b, u);
    MeanChain(ExtractWindSpeed(Some(a + " to " + b + " " + u)), DigitsValue(a), DigitsValue(b));
  }

  lemma MeanChain(e: Num, low: nat, high: nat)
    requires e == Mean(Parsed(false, low), Parsed(false, high))
    ensures e == Val((low + high) as real / 2.0)
  {
    MeanUnsigned(low, high);
  }

  /** "10 to 20 mph" gives 15. */
  lemma RangeExample()
    ensures ExtractWindSpeed(Some("10 to 20 mph")) == Val(15.0)
  {
    var a, b, u := "10", "20", "mph";
    NotIncludedWithoutFirstChar(u, "to");
    assert a + " to " + b + " " + u == "10 to 20 mph";
    RangeTextValue(a, b, u);
    assert DigitsValue(a) == 10 && DigitsValue(b) == 20;
  }

  /** A single reading, "15 mph", gives 15. */
  lemma SingleExample()
    ensures ExtractWindSpeed(Some("15 mph")) == Val(15.0)
  {
    var d, u := "15", "mph";
    NotIncludedWithoutFirstChar(u, "to");
    assert d + (" " + u) == "15 mph";
    SingleValueText(d, u);
    assert DigitsValue(d) == 15;
  }

  /** A unit glued to the number, "20mph", still gives 20. */
  lemma GluedExample()
    ensures ExtractWindSpeed(Some("20mph")) == Val(20.0)
  {
    var d, u := "20", "mph";
    assert d + u == "20mph";
    GluedUnitText(d, u);
    assert DigitsValue(d) == 20;
  }

  /** A unit containing 't' but not "to", "15kt", gives 15. */
  lemma KnotsExample()
    ensures ExtractWindSpeed(Some("15kt")) == Val(15.0)
  {
    var d, u := "15", "kt";
    KtFree(u);
    assert d + u == "15kt";
    GluedUnitText(d, u);
    assert DigitsValue(d) == 15;
  }

  lemma KtFree(u: string)
    requires u == "kt"
    ensures !Includes(u, "to")
  {
    assert u[..2] != "to" by { assert u[..2][0] == 'k'; }
    assert u[1..] == "t";
    assert IndexOf(u[1..], "to") == None;
  }

  /** A word with no number, "Calm", gives NaN rather than 0. */
  lemma CalmExample()
    ensures ExtractWindSpeed(Some("Calm")) == NaN
  {
    var s := "Calm";
    NotIncludedWithoutFirstChar(s, "to");
    NonNumericText(s);
  }

  /** A leading space makes the first token empty: " 15 mph" gives NaN. */
  lemma LeadingSpaceExample()
    ensures ExtractWindSpeed(Some(" 15 mph")) == NaN
  {
    var u := "15 mph";
    NotIncludedWithoutFirstChar(u, "to");
    assert " " + u == " 15 mph";
    LeadingSpaceText(u);
  }

  /** A negative reading, "-5 mph", gives -5. */
  lemma NegativeExample()
    ensures ExtractWindSpeed(Some("-5 mph")) == Val(-5.0)
  {
    var d, u := "5", "mph";
    NotIncludedWithoutFirstChar(u, "to");
    assert "-" + d + " " + u == "-5 mph";
    NegativeText(d, u);
    assert DigitsValue(d) == 5;
  }

  lemma RangeOfParsed(s: string, low: nat, high: nat)
    requires Includes(s, "to")
    requires LowBound(s) == Parsed(false, low) && HighBound(s) == Parsed(false, high)
    ensures ExtractWindSpeed(Some(s)) == Mean(Parsed(false, low), Parsed(false, high))
  {
    ExtractRange(s);
  }

  lemma MeanUnsigned(low: nat, high: nat)
    ensures Mean(Parsed(false, low), Parsed(false, high)) == Val((low + high) as real / 2.0)
  {
  }

  lemma RangeBounds(s: string, a: string, b: string, u: string)
    requires |a| > 0 && AllDigits(a)
    requires |b| > 0 && AllDigits(b)
    requires Includes(s, "to")
    requires Split(s, "to") == [a + " ", " " + b + " " + u]
    ensures LowBound(s) == Parsed(false, DigitsValue(a))
    ensures HighBound(s) == Parsed(false, DigitsValue(b))
  {
    LowBoundIs(s, a + " ");
    LowTokenOf(a);
    ParseIntAllDigits(a);
    var y := " " + b + " " + u;
    HighBoundIs(s, y);
    SpaceShape(b, u);
    HighTokenOf(y, b, u);
    ParseIntAllDigits(b);
  }

  /** Only the text before the first "to" and between the first and second "to" matters. */
  lemma RangeIgnoresLaterSegments(x: string, y: string, z: string)
    requires !Includes(x, "to") && !Includes(y, "to")
    ensures ExtractWindSpeed(Some(x + "to" + (y + "to" + z))) == ExtractWindSpeed(Some(x + "to" + y))
  {
    var s1 := x + "to" + (y + "to" + z);
    var s2 := x + "to" + y;
    SeparatorsUnbordered();
    SplitFirstTwo(x, "to", y, z);
    SplitTwo(s2, x, "to", y);
    SameBounds(s1, s2, x, y);
    ExtractRange(s1);
    ExtractRange(s2);
  }

  lemma SameBounds(s1: string, s2: string, x: string, y: string)
    requires Includes(s1, "to") && Includes(s2, "to")
    requires |Split(s1, "to")| >= 2 && Split(s1, "to")[0] == x && Split(s1, "to")[1] == y
    requires Split(s2, "to") == [x, y]
    ensures LowBound(s1) == LowBound(s2) && HighBound(s1) == HighBound(s2)
  {
    LowBoundIs(s1, x);
    LowBoundIs(s2, x);
    HighBoundIs(s1, y);
    HighBoundIs(s2, y);
  }
}
