/** `parseMetricValue` (src/app/page.tsx:19-27): any metric field to a display-safe magnitude. */
module MetricValues {
  import opened Wrappers
  import opened JsNumber
  import opened Chars
  import opened Decimal
  import opened Sanitizer
  import opened Market

  /**
   * A number is clamped at 0 (0 when not finite); text is sanitised, read with
   * `parseFloat`, and clamped at 0 (0 when nothing parses). Over text the result
   * is described through the longest decimal-literal prefix of the sanitised text.
   */
  function ParseMetricValue(v: MetricValue): (r: real)
    ensures r >= 0.0
    ensures v.Number? && v.num.Finite? ==> r == Max(0.0, v.num.val)
    ensures v.Number? && !v.num.Finite? ==> r == 0.0
    ensures v.Text? && HasNoLiteralPrefix(Sanitize(v.text)) ==> r == 0.0
    ensures v.Text? ==> forall n :: IsLongestLiteralPrefix(Sanitize(v.text), n) ==>
                         r == Max(0.0, LiteralValue(Sanitize(v.text)[..n]))
  {
    match v
    case Number(n) =>
      if n.IsFinite() then Max(0.0, n.val) else 0.0
    case Text(s) =>
      var parsed := ParseFloat(Sanitize(s));
      if parsed.IsFinite() then Max(0.0, parsed.val) else 0.0
  }

  /** A non-negative finite number passes through unchanged. */
  lemma NonNegativeNumberUnchanged(x: real)
    requires x >= 0.0
    ensures ParseMetricValue(Number(Finite(x))) == x
  {
  }

  /** Text reads as its parsed value once the scanner's result on the sanitised text is known. */
  lemma TextReadsAsScan(s: string, n: nat, v: real)
    requires ScanDecimal(Sanitize(s)) == Some(Scan(n, v))
    ensures ParseMetricValue(Text(s)) == Max(0.0, v)
  {
  }

  /** Text without a single digit (`""`, `"abc"`, `"-"`, `"."`, `"N/A"`) reads as 0. */
  lemma DigitFreeTextIsZero(s: string)
    requires forall i :: 0 <= i < |s| ==> !IsDigit(s[i])
    ensures ParseMetricValue(Text(s)) == 0.0
  {
    NoDigitsSurvive(s);
    NoDigitNoLiteral(Sanitize(s));
  }

  /** A plain run of digits reads as the integer it spells. */
  lemma IntegerText(a: string)
    requires a != [] && AllDigits(a)
    ensures ParseMetricValue(Text(a)) == DigitsValue(a) as real
  {
    AllNumericKept(a);
    assert a + [] == a;
    ScanOfInteger(a, []);
    TextReadsAsScan(a, |a|, DigitsValue(a) as real);
  }

  /** A negative amount reads as 0. */
  lemma NegativeTextIsZero(a: string)
    requires a != [] && AllDigits(a)
    ensures ParseMetricValue(Text("-" + a)) == 0.0
  {
    NegativeScan(a);
    assert Sanitize("-" + a) == "-" + a by {
      AllNumericKept("-" + a);
    }
    TextReadsAsScan("-" + a, |a| + 1, -(DigitsValue(a) as real));
  }

  /** Digits, a point and digits read as the decimal number they spell. */
  lemma DecimalText(a: string, b: string)
    requires AllDigits(a) && AllDigits(b) && |a| + |b| > 0
    ensures ParseMetricValue(Text(a + "." + b)) == PointValue(a, b)
  {
    DecimalScan(a, b);
    PointValueNonNegative(a, b);
    TextReadsAsScan(a + "." + b, |a| + 1 + |b|, PointValue(a, b));
  }

  lemma DecimalScan(a: string, b: string)
    requires AllDigits(a) && AllDigits(b) && |a| + |b| > 0
    ensures ScanDecimal(Sanitize(a + "." + b)) == Some(Scan(|a| + 1 + |b|, PointValue(a, b)))
  {
    var s := a + "." + b;
    assert s == a + ['.'] + b + [];
    AllNumericKept(s);
    ScanOfFraction(a, b, []);
  }

  /** Only the longest literal prefix is read: a second `.` ends the number. */
  lemma SecondPointEndsNumber(a: string, b: string, c: string)
    requires AllDigits(a) && AllDigits(b) && |a| + |b| > 0
    requires forall i :: 0 <= i < |c| ==> IsNumericChar(c[i])
    ensures ParseMetricValue(Text(a + "." + b + "." + c)) == PointValue(a, b)
  {
    var s := a + "." + b + "." + c;
    SecondPointSanitized(a, b, c);
    SecondPointScan(a, b, c);
    PointValueNonNegative(a, b);
    TextReadsAsScan(s, |a| + 1 + |b|, PointValue(a, b));
  }

  lemma SecondPointSanitized(a: string, b: string, c: string)
    requires AllDigits(a) && AllDigits(b)
    requires forall i :: 0 <= i < |c| ==> IsNumericChar(c[i])
    ensures Sanitize(a + "." + b + "." + c) == a + "." + b + "." + c
  {
    AllNumericKept(a + "." + b + "." + c);
  }

  lemma SecondPointScan(a: string, b: string, c: string)
    requires AllDigits(a) && AllDigits(b) && |a| + |b| > 0
    ensures ScanDecimal(a + "." + b + "." + c) == Some(Scan(|a| + 1 + |b|, PointValue(a, b)))
  {
    assert a + "." + b + "." + c == a + ['.'] + b + (['.'] + c);
    ScanOfFraction(a, b, ['.'] + c);
  }

  /** Only the longest literal prefix is read: a `-` after the digits ends the number. */
  lemma {:induction false} InnerMinusEndsNumber(a: string, c: string)
    requires a != [] && AllDigits(a)
    requires forall i :: 0 <= i < |c| ==> IsNumericChar(c[i])
    ensures ParseMetricValue(Text(a + "-" + c)) == DigitsValue(a) as real
  {
    var s := a + "-" + c;
    assert s == a + (['-'] + c);
    AllNumericKept(s);
    ScanOfInteger(a, ['-'] + c);
    TextReadsAsScan(s, |a|, DigitsValue(a) as real);
  }

  /** A currency sign and a thousands separator are ignored: `"$12,345"` reads as 12345. */
  lemma CurrencyAndSeparatorIgnored(a: string, b: string)
    requires AllDigits(a) && AllDigits(b) && a + b != []
    ensures ParseMetricValue(Text("$" + a + "," + b)) == DigitsValue(a + b) as real
  {
    assert AllDigits(a + b);
    SanitizeCurrencyAmount(a, b);
    AllNumericKept(a);
    AllNumericKept(b);
    AllNumericKept(a + b);
    SameSanitizedText("$" + a + "," + b, a + b);
    IntegerText(a + b);
  }

  /** Thousands separators inside a decimal amount are ignored: `"12,345.50"` reads as 12345.5. */
  lemma GroupedDecimalText(a: string, b: string, c: string)
    requires AllDigits(a) && AllDigits(b) && AllDigits(c) && |a + b| + |c| > 0
    ensures ParseMetricValue(Text(a + "," + b + "." + c)) == PointValue(a + b, c)
  {
    GroupedDecimalSanitized(a, b, c);
    SameSanitizedText(a + "," + b + "." + c, a + b + "." + c);
    assert AllDigits(a + b);
    DecimalText(a + b, c);
  }

  /** Dropping the separator leaves the ungrouped amount's sanitised text. */
  lemma GroupedDecimalSanitized(a: string, b: string, c: string)
    ensures Sanitize(a + "," + b + "." + c) == Sanitize(a + b + "." + c)
  {
    assert a + "," + b + "." + c == a + "," + (b + "." + c);
    SanitizeSeparator(a, b + "." + c);
    SanitizeAppend(a, b + "." + c);
    assert a + (b + "." + c) == a + b + "." + c;
  }

  /** Only the digits, points and minus signs of text matter. */
  lemma SameSanitizedText(s: string, t: string)
    requires Sanitize(s) == Sanitize(t)
    ensures ParseMetricValue(Text(s)) == ParseMetricValue(Text(t))
  {
  }
}
