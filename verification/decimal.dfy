/**
 * `Number.parseFloat` (section 19.2.4 of ECMA-262) over the alphabet the
 * dashboard ever hands it: the digits, `.` and `-`.
 *
 * Over that alphabet a StrDecimalLiteral is an optional `-`, then digits
 * containing at most one `.`, with at least one digit somewhere (no exponent,
 * no `+`, no `Infinity`, no white space can occur). parseFloat returns the
 * value of the longest prefix that is such a literal, and NaN when no prefix is.
 *
 * The module holds two independent descriptions of that behaviour: the
 * declarative one (`IsDecimalLiteral`, `LiteralValue`, `IsLongestLiteralPrefix`)
 * and a left-to-right scanner (`ScanDecimal`), proved to agree in
 * `ScanDecimalFindsLongestLiteral`.
 */
module Decimal {
  import opened Wrappers
  import opened JsNumber
  import opened Chars

  predicate AllDigits(s: string) {
    forall i :: 0 <= i < |s| ==> IsDigit(s[i])
  }

  function DigitValue(c: char): (d: nat)
    requires IsDigit(c)
    ensures d <= 9
  {
    c as int - '0' as int
  }

  /** The natural number a string of decimal digits denotes, most significant digit first. */
  function DigitsValue(s: string): nat
    requires AllDigits(s)
  {
    if s == [] then 0 else DigitsValue(s[..|s| - 1]) * 10 + DigitValue(s[|s| - 1])
  }

  /** `x` scaled down by `k` decimal places, that is x / 10^k. */
  function Shift(x: real, k: nat): real
    decreases k
  {
    if k == 0 then x else Shift(x / 10.0, k - 1)
  }

  // ---------------------------------------------------------------------------
  // The declarative reference: what a decimal literal is and what it denotes
  // ---------------------------------------------------------------------------

  /** Digits and `.` only, at most one `.`, at least one digit. */
  predicate IsUnsignedLiteral(t: string) {
    && (forall i :: 0 <= i < |t| ==> IsDigit(t[i]) || t[i] == '.')
    && (forall i, j :: 0 <= i < j < |t| && t[i] == '.' ==> t[j] != '.')
    && (exists i :: 0 <= i < |t| && IsDigit(t[i]))
  }

  /** An unsigned literal, optionally preceded by one `-`. */
  predicate IsDecimalLiteral(t: string) {
    IsUnsignedLiteral(t) || (|t| >= 1 && t[0] == '-' && IsUnsignedLiteral(t[1..]))
  }

  /** The digits of `t`, in order, with everything else dropped. */
  function DigitsOf(t: string): (d: string)
    ensures AllDigits(d)
    ensures |d| <= |t|
  {
    if t == [] then []
    else if IsDigit(t[0]) then [t[0]] + DigitsOf(t[1..])
    else DigitsOf(t[1..])
  }

  /** The number of characters after the first `.` of `t` (0 when there is none). */
  function FractionLength(t: string): nat {
    if t == [] then 0
    else if t[0] == '.' then |t| - 1
    else FractionLength(t[1..])
  }

  /** An unsigned literal denotes its digit string scaled down by its fraction length. */
  function UnsignedValue(t: string): real
    requires IsUnsignedLiteral(t)
  {
    Shift(DigitsValue(DigitsOf(t)) as real, FractionLength(t))
  }

  function LiteralValue(t: string): real
    requires IsDecimalLiteral(t)
  {
    if IsUnsignedLiteral(t) then UnsignedValue(t) else -UnsignedValue(t[1..])
  }

  /** `s[..n]` is a decimal literal and no longer prefix of `s` is one. */
  predicate IsLongestLiteralPrefix(s: string, n: int) {
    && 0 <= n <= |s|
    && IsDecimalLiteral(s[..n])
    && forall j :: n < j <= |s| ==> !IsDecimalLiteral(s[..j])
  }

  predicate HasNoLiteralPrefix(s: string) {
    forall j :: 0 <= j <= |s| ==> !IsDecimalLiteral(s[..j])
  }

  // ---------------------------------------------------------------------------
  // The scanner
  // ---------------------------------------------------------------------------

  /** A scanned prefix: how many characters it spans and the value it denotes. */
  datatype Scan = Scan(length: nat, value: real)

  /** The length of the run of digits that `s` starts with. */
  function LeadingDigits(s: string): (n: nat)
    ensures n <= |s|
    ensures AllDigits(s[..n])
    ensures n < |s| ==> !IsDigit(s[n])
  {
    if s == [] || !IsDigit(s[0]) then 0 else 1 + LeadingDigits(s[1..])
  }

  /** The value of the digits `a`, a decimal point, then the digits `b`. */
  function PointValue(a: string, b: string): real
    requires AllDigits(a) && AllDigits(b)
  {
    DigitsValue(a) as real + Shift(DigitsValue(b) as real, |b|)
  }

  /** Digits, then optionally `.` and digits; at least one digit in all. */
  function ScanUnsigned(s: string): (r: Option<Scan>)
    ensures r.Some? ==> r.value.length <= |s|
  {
    var k := LeadingDigits(s);
    if k < |s| && s[k] == '.' then
      var m := LeadingDigits(s[k + 1..]);
      if k + m == 0 then None
      else Some(Scan(k + 1 + m, PointValue(s[..k], s[k + 1..][..m])))
    else if k == 0 then None
    else Some(Scan(k, DigitsValue(s[..k]) as real))
  }

  /** An optional leading `-`, then an unsigned scan. */
  function ScanDecimal(s: string): (r: Option<Scan>)
    ensures r.Some? ==> r.value.length <= |s|
  {
    if |s| > 0 && s[0] == '-' then
      match ScanUnsigned(s[1..])
      case None => None
      case Some(sc) => Some(Scan(sc.length + 1, -sc.value))
    else ScanUnsigned(s)
  }

  /**
   * `Number.parseFloat` on a string over the digits, `.` and `-`: NaN exactly
   * when no prefix is a decimal literal, otherwise the value of the longest one.
   */
  function ParseFloat(s: string): (r: Num)
    requires forall i :: 0 <= i < |s| ==> IsNumericChar(s[i])
    ensures r.NaN? || r.Finite?
    ensures r.NaN? <==> HasNoLiteralPrefix(s)
    ensures forall n :: IsLongestLiteralPrefix(s, n) ==> r == Finite(LiteralValue(s[..n]))
  {
    ScanDecimalFindsLongestLiteral(s);
    match ScanDecimal(s)
    case None => NaN
    case Some(sc) => Finite(sc.value)
  }

  // ---------------------------------------------------------------------------
  // Agreement of the scanner with the reference
  // ---------------------------------------------------------------------------

  /** The longest literal prefix, when there is one, is unique. */
  lemma LongestLiteralPrefixUnique(s: string, n: int, n': int)
    requires IsLongestLiteralPrefix(s, n) && IsLongestLiteralPrefix(s, n')
    ensures n == n'
  {
  }

  /** The scanner finds a literal exactly when one exists, and then the longest, with its value. */
  lemma ScanDecimalFindsLongestLiteral(s: string)
    ensures ScanDecimal(s).None? <==> HasNoLiteralPrefix(s)
    ensures ScanDecimal(s).Some? ==>
              && IsLongestLiteralPrefix(s, ScanDecimal(s).value.length)
              && ScanDecimal(s).value.value == LiteralValue(s[..ScanDecimal(s).value.length])
    ensures forall n :: IsLongestLiteralPrefix(s, n) ==>
              ScanDecimal(s).Some? && ScanDecimal(s).value.length == n
  {
    if |s| > 0 && s[0] == '-' {
      ScanNegativeFindsLongestLiteral(s);
    } else {
      ScanNonNegativeFindsLongestLiteral(s);
    }
    forall n | IsLongestLiteralPrefix(s, n)
      ensures ScanDecimal(s).Some? && ScanDecimal(s).value.length == n
    {
      if ScanDecimal(s).Some? {
        LongestLiteralPrefixUnique(s, n, ScanDecimal(s).value.length);
      }
    }
  }

  lemma ScanNegativeFindsLongestLiteral(s: string)
    requires |s| > 0 && s[0] == '-'
    ensures ScanDecimal(s).None? ==> HasNoLiteralPrefix(s)
    ensures ScanDecimal(s).Some? ==>
              && IsLongestLiteralPrefix(s, ScanDecimal(s).value.length)
              && ScanDecimal(s).value.value == LiteralValue(s[..ScanDecimal(s).value.length])
  {
    var u := s[1..];
    ScanUnsignedFindsLongestLiteral(u);
    NegativePrefixes(s);
    match ScanUnsigned(u)
    case None =>
      forall j | 0 <= j <= |s|
        ensures !IsDecimalLiteral(s[..j])
      {
        if j >= 1 {
          assert !IsUnsignedLiteral(u[..j - 1]);
        }
      }
    case Some(sc) =>
      var n := sc.length + 1;
      assert IsDecimalLiteral(s[..n]);
      assert !IsUnsignedLiteral(s[..n]) by {
        assert s[..n][0] == '-';
      }
      assert s[..n][1..] == u[..sc.length];
      assert LiteralValue(s[..n]) == -UnsignedValue(u[..sc.length]);
      forall j | n < j <= |s|
        ensures !IsDecimalLiteral(s[..j])
      {
        assert !IsUnsignedLiteral(u[..j - 1]);
      }
  }

  /** After a leading `-`, a prefix is a literal exactly when the rest of it is an unsigned one. */
  lemma NegativePrefixes(s: string)
    requires |s| > 0 && s[0] == '-'
    ensures !IsDecimalLiteral(s[..0])
    ensures forall j :: 1 <= j <= |s| ==> (IsDecimalLiteral(s[..j]) <==> IsUnsignedLiteral(s[1..][..j - 1]))
    ensures forall j :: 1 <= j <= |s| ==> !IsUnsignedLiteral(s[..j])
  {
    var u := s[1..];
    forall j | 1 <= j <= |s|
      ensures !IsUnsignedLiteral(s[..j])
      ensures IsDecimalLiteral(s[..j]) <==> IsUnsignedLiteral(u[..j - 1])
    {
      assert s[..j][1..] == u[..j - 1];
      assert s[..j][0] == '-';
    }
    assert !IsDecimalLiteral(s[..0]) by {
      assert s[..0] == [];
    }
  }

  lemma ScanNonNegativeFindsLongestLiteral(s: string)
    requires !(|s| > 0 && s[0] == '-')
    ensures ScanDecimal(s).None? ==> HasNoLiteralPrefix(s)
    ensures ScanDecimal(s).Some? ==>
              && IsLongestLiteralPrefix(s, ScanDecimal(s).value.length)
              && ScanDecimal(s).value.value == LiteralValue(s[..ScanDecimal(s).value.length])
  {
    ScanUnsignedFindsLongestLiteral(s);
    forall j | 0 <= j <= |s|
      ensures IsDecimalLiteral(s[..j]) <==> IsUnsignedLiteral(s[..j])
    {
      if j >= 1 {
        assert s[..j][0] == s[0];
      }
    }
  }

  predicate IsLongestUnsignedPrefix(s: string, n: int) {
    && 0 <= n <= |s|
    && IsUnsignedLiteral(s[..n])
    && forall j :: n < j <= |s| ==> !IsUnsignedLiteral(s[..j])
  }

  lemma ScanUnsignedFindsLongestLiteral(s: string)
    ensures ScanUnsigned(s).None? ==> forall j :: 0 <= j <= |s| ==> !IsUnsignedLiteral(s[..j])
    ensures ScanUnsigned(s).Some? ==>
              && IsLongestUnsignedPrefix(s, ScanUnsigned(s).value.length)
              && ScanUnsigned(s).value.value == UnsignedValue(s[..ScanUnsigned(s).value.length])
  {
    var k := LeadingDigits(s);
    if k < |s| && s[k] == '.' {
      var m := LeadingDigits(s[k + 1..]);
      if k + m == 0 {
        LoneDotScan(s);
      } else {
        FractionScan(s, k, m);
      }
    } else {
      IntegerScan(s);
    }
  }

  /** No `.` follows the leading digits: the literal, if any, is those digits. */
  lemma {:induction false} IntegerScan(s: string)
    requires !(LeadingDigits(s) < |s| && s[LeadingDigits(s)] == '.')
    ensures ScanUnsigned(s).None? ==> forall j :: 0 <= j <= |s| ==> !IsUnsignedLiteral(s[..j])
    ensures ScanUnsigned(s).Some? ==>
              && IsLongestUnsignedPrefix(s, ScanUnsigned(s).value.length)
              && ScanUnsigned(s).value.value == UnsignedValue(s[..ScanUnsigned(s).value.length])
  {
    var k := LeadingDigits(s);
    assert !IsUnsignedLiteral(s[..0]) by {
      assert s[..0] == [];
    }
    forall j | k < j <= |s|
      ensures !IsUnsignedLiteral(s[..j])
    {
      assert s[..j][k] == s[k];
      assert !(IsDigit(s[..j][k]) || s[..j][k] == '.');
    }
    if k > 0 {
      var t := s[..k];
      assert IsUnsignedLiteral(t) by {
        assert IsDigit(t[0]);
      }
      UnsignedValueOfDigits(t);
    }
  }

  /** `s` begins with a `.` that no digit follows: no prefix is a literal. */
  lemma LoneDotScan(s: string)
    requires LeadingDigits(s) == 0 && |s| > 0 && s[0] == '.' && LeadingDigits(s[1..]) == 0
    ensures forall j :: 0 <= j <= |s| ==> !IsUnsignedLiteral(s[..j])
  {
    assert !IsUnsignedLiteral(s[..0]) by {
      assert s[..0] == [];
    }
    assert !IsUnsignedLiteral(s[..1]) by {
      assert s[..1] == ['.'];
    }
    forall j | 2 <= j <= |s|
      ensures !IsUnsignedLiteral(s[..j])
    {
      var t := s[..j];
      assert t[0] == '.' && t[1] == s[1] == s[1..][0];
      if t[1] == '.' {
        assert !(t[0] == '.' ==> t[1] != '.');
      } else {
        assert !(IsDigit(t[1]) || t[1] == '.');
      }
    }
  }

  /** Digits, a `.`, digits, with at least one digit: the longest literal ends after the second run. */
  lemma {:induction false} FractionScan(s: string, k: nat, m: nat)
    requires k == LeadingDigits(s) && k < |s| && s[k] == '.'
    requires m == LeadingDigits(s[k + 1..]) && k + m > 0
    ensures IsLongestUnsignedPrefix(s, k + 1 + m)
    ensures ScanUnsigned(s) == Some(Scan(k + 1 + m, UnsignedValue(s[..k + 1 + m])))
  {
    FractionPrefix(s, k, m);
    ScanUnsignedAtFraction(s, k, m);
  }

  lemma ScanUnsignedAtFraction(s: string, k: nat, m: nat)
    requires k == LeadingDigits(s) && k < |s| && s[k] == '.'
    requires m == LeadingDigits(s[k + 1..]) && k + m > 0
    ensures ScanUnsigned(s) == Some(Scan(k + 1 + m, PointValue(s[..k], s[k + 1..][..m])))
  {
  }

  lemma FractionPrefix(s: string, k: nat, m: nat)
    requires k + 1 + m <= |s| && s[k] == '.' && k + m > 0
    requires AllDigits(s[..k]) && AllDigits(s[k + 1..][..m])
    requires k + 1 + m < |s| ==> !IsDigit(s[k + 1 + m])
    ensures IsLongestUnsignedPrefix(s, k + 1 + m)
    ensures UnsignedValue(s[..k + 1 + m]) == PointValue(s[..k], s[k + 1..][..m])
  {
    var a, b := s[..k], s[k + 1..][..m];
    SplitAtDot(s, k, m);
    DottedLiteral(a, b);
    NothingLongerAfterFraction(s, k, m);
    UnsignedValueOfSplit(a, b);
  }

  /** After `digits.digits`, the next character (a second `.` or any non-digit) ends every literal. */
  lemma NothingLongerAfterFraction(s: string, k: nat, m: nat)
    requires k < |s| && s[k] == '.'
    requires k + 1 + m <= |s|
    requires k + 1 + m < |s| ==> !IsDigit(s[k + 1 + m])
    ensures forall j :: k + 1 + m < j <= |s| ==> !IsUnsignedLiteral(s[..j])
  {
    var n := k + 1 + m;
    forall j | n < j <= |s|
      ensures !IsUnsignedLiteral(s[..j])
    {
      var t := s[..j];
      assert t[k] == '.';
      assert t[n] == s[n];
      if t[n] == '.' {
        assert !(t[k] == '.' ==> t[n] != '.');
      } else {
        assert !(IsDigit(t[n]) || t[n] == '.');
      }
    }
  }

  lemma SplitAtDot(s: string, k: nat, m: nat)
    requires k + 1 + m <= |s| && s[k] == '.'
    ensures s[..k + 1 + m] == s[..k] + ['.'] + s[k + 1..][..m]
  {
    var n := k + 1 + m;
    assert s[..n] == s[..k] + s[k..n];
    assert s[k..n] == [s[k]] + s[k + 1..n];
    assert s[k + 1..][..m] == s[k + 1..n];
  }

  lemma DottedLiteral(a: string, b: string)
    requires AllDigits(a) && AllDigits(b) && |a| + |b| > 0
    ensures IsUnsignedLiteral(a + ['.'] + b)
  {
    var t := a + ['.'] + b;
    var k := |a|;
    forall i | 0 <= i < |t|
      ensures IsDigit(t[i]) || t[i] == '.'
    {
      if i < k {
        assert t[i] == a[i];
      } else if i > k {
        assert t[i] == b[i - k - 1];
      }
    }
    forall i, j | 0 <= i < j < |t| && t[i] == '.'
      ensures t[j] != '.'
    {
      assert t[j] == b[j - k - 1];
    }
    if k > 0 {
      assert IsDigit(t[0]) by {
        assert t[0] == a[0];
      }
    } else {
      assert IsDigit(t[1]) by {
        assert t[1] == b[0];
      }
    }
  }

  // ---------------------------------------------------------------------------
  // Arithmetic of digit strings
  // ---------------------------------------------------------------------------

  lemma {:induction false} DigitsOfAllDigits(s: string)
    requires AllDigits(s)
    ensures DigitsOf(s) == s
  {
    if s != [] {
      DigitsOfAllDigits(s[1..]);
    }
  }

  lemma {:induction false} DigitsOfAppend(a: string, b: string)
    ensures DigitsOf(a + b) == DigitsOf(a) + DigitsOf(b)
  {
    if a == [] {
      assert a + b == b;
    } else {
      assert (a + b)[1..] == a[1..] + b;
      DigitsOfAppend(a[1..], b);
    }
  }

  lemma {:induction false} FractionLengthAfterDot(a: string, b: string)
    requires AllDigits(a)
    ensures FractionLength(a + ['.'] + b) == |b|
  {
    if a == [] {
      assert a + ['.'] + b == ['.'] + b;
    } else {
      assert (a + ['.'] + b)[1..] == a[1..] + ['.'] + b;
      FractionLengthAfterDot(a[1..], b);
    }
  }

  lemma {:induction false} FractionLengthOfDigits(a: string)
    requires AllDigits(a)
    ensures FractionLength(a) == 0
  {
    if a != [] {
      FractionLengthOfDigits(a[1..]);
    }
  }

  lemma {:induction false} UnsignedValueOfDigits(t: string)
    requires AllDigits(t) && IsUnsignedLiteral(t)
    ensures UnsignedValue(t) == DigitsValue(t) as real
  {
    DigitsOfAllDigits(t);
    FractionLengthOfDigits(t);
  }

  lemma DigitsOfSplit(a: string, b: string)
    requires AllDigits(a) && AllDigits(b)
    ensures DigitsOf(a + ['.'] + b) == a + b
  {
    assert DigitsOf(a + ['.']) == a by {
      DigitsOfAppend(a, ['.']);
      DigitsOfAllDigits(a);
      assert DigitsOf(['.']) == [];
    }
    assert DigitsOf(b) == b by {
      DigitsOfAllDigits(b);
    }
    DigitsOfAppend(a + ['.'], b);
  }

  /** `a.b` denotes the integer part `a` plus `b` scaled down by its length. */
  lemma UnsignedValueOfSplit(a: string, b: string)
    requires AllDigits(a) && AllDigits(b) && IsUnsignedLiteral(a + ['.'] + b)
    ensures UnsignedValue(a + ['.'] + b) == PointValue(a, b)
  {
    var t := a + ['.'] + b;
    assert DigitsOf(t) == a + b && FractionLength(t) == |b| by {
      DigitsOfSplit(a, b);
      FractionLengthAfterDot(a, b);
    }
    ShiftAppend(a, b);
  }

  /** Appending digits `b` to `a` and shifting by |b| places leaves `a` as the integer part. */
  lemma {:induction false} ShiftAppend(a: string, b: string)
    requires AllDigits(a) && AllDigits(b)
    ensures Shift(DigitsValue(a + b) as real, |b|) == DigitsValue(a) as real + Shift(DigitsValue(b) as real, |b|)
  {
    if b == [] {
      assert a + b == a;
    } else {
      var b' := b[..|b| - 1];
      var k := |b'|;
      var d := DigitValue(b[|b| - 1]) as real;
      assert (a + b)[..|a + b| - 1] == a + b';
      var x := DigitsValue(a + b') as real;
      var y := DigitsValue(b') as real;
      assert DigitsValue(a + b) as real == 10.0 * x + d;
      assert DigitsValue(b) as real == 10.0 * y + d;
      calc {
        Shift(10.0 * x + d, k + 1);
        { ShiftAdd(10.0 * x, d, k + 1); }
        Shift(10.0 * x, k + 1) + Shift(d, k + 1);
        { ShiftTen(x, k); }
        Shift(x, k) + Shift(d, k + 1);
        { ShiftAppend(a, b'); }
        DigitsValue(a) as real + Shift(y, k) + Shift(d, k + 1);
        { ShiftTen(y, k); }
        DigitsValue(a) as real + Shift(10.0 * y, k + 1) + Shift(d, k + 1);
        { ShiftAdd(10.0 * y, d, k + 1); }
        DigitsValue(a) as real + Shift(10.0 * y + d, k + 1);
      }
    }
  }

  lemma {:induction false} ShiftAdd(x: real, y: real, k: nat)
    ensures Shift(x + y, k) == Shift(x, k) + Shift(y, k)
    decreases k
  {
    if k > 0 {
      assert (x + y) / 10.0 == x / 10.0 + y / 10.0;
      ShiftAdd(x / 10.0, y / 10.0, k - 1);
    }
  }

  lemma ShiftTen(x: real, k: nat)
    ensures Shift(10.0 * x, k + 1) == Shift(x, k)
  {
    assert 10.0 * x / 10.0 == x;
  }

  // ---------------------------------------------------------------------------
  // The scanner on common shapes of input
  // ---------------------------------------------------------------------------

  /** A run of digits followed by a non-digit (or nothing) is read up to that non-digit. */
  lemma {:induction false} LeadingDigitsOfRun(a: string, rest: string)
    requires AllDigits(a)
    requires rest == [] || !IsDigit(rest[0])
    ensures LeadingDigits(a + rest) == |a|
    decreases |a|
  {
    if a == [] {
      assert a + rest == rest;
    } else {
      assert (a + rest)[0] == a[0];
      assert (a + rest)[1..] == a[1..] + rest;
      LeadingDigitsOfRun(a[1..], rest);
    }
  }

  /** Digits, then something that is neither a digit nor `.`: the digits are the number. */
  lemma {:induction false} ScanOfInteger(a: string, rest: string)
    requires a != [] && AllDigits(a)
    requires rest == [] || (!IsDigit(rest[0]) && rest[0] != '.')
    ensures ScanDecimal(a + rest) == Some(Scan(|a|, DigitsValue(a) as real))
  {
    LeadingDigitsOfRun(a, rest);
    assert (a + rest)[0] == a[0];
    assert (a + rest)[..|a|] == a;
  }

  /** Digits, `.`, digits, then a non-digit (or nothing): the number ends after the second run. */
  lemma ScanOfFraction(a: string, b: string, rest: string)
    requires AllDigits(a) && AllDigits(b) && |a| + |b| > 0
    requires rest == [] || !IsDigit(rest[0])
    ensures ScanDecimal(a + ['.'] + b + rest) == Some(Scan(|a| + 1 + |b|, PointValue(a, b)))
  {
    FractionShape(a, b, rest);
  }

  lemma FractionShape(a: string, b: string, rest: string)
    requires AllDigits(a) && AllDigits(b) && |a| + |b| > 0
    requires rest == [] || !IsDigit(rest[0])
    ensures var s := a + ['.'] + b + rest;
            && |s| > 0 && s[0] != '-'
            && LeadingDigits(s) == |a| && |a| < |s| && s[|a|] == '.'
            && LeadingDigits(s[|a| + 1..]) == |b| && |b| <= |s[|a| + 1..]|
            && s[..|a|] == a && s[|a| + 1..][..|b|] == b
  {
    DotSplit(a, b + rest);
    assert a + ['.'] + b + rest == a + ['.'] + (b + rest);
    LeadingDigitsOfRun(a, ['.'] + (b + rest));
    LeadingDigitsOfRun(b, rest);
    assert (b + rest)[..|b|] == b;
  }

  /** Where the pieces of `a . t` sit. */
  lemma DotSplit(a: string, t: string)
    requires AllDigits(a)
    ensures var s := a + ['.'] + t;
            && s == a + (['.'] + t)
            && s[|a|] == '.' && s[|a| + 1..] == t && s[..|a|] == a
            && s[0] != '-'
  {
    var s := a + ['.'] + t;
    assert s[0] != '-' by {
      if a == [] {
        assert s[0] == '.';
      } else {
        assert s[0] == a[0];
      }
    }
  }

  /** Every literal holds a digit, so text without digits has no literal prefix. */
  lemma NoDigitNoLiteral(t: string)
    requires forall i :: 0 <= i < |t| ==> !IsDigit(t[i])
    ensures HasNoLiteralPrefix(t)
  {
    forall j | 0 <= j <= |t|
      ensures !IsDecimalLiteral(t[..j])
    {
      var u := t[..j];
      assert forall i :: 0 <= i < |u| ==> !IsDigit(u[i]);
      if |u| >= 1 {
        assert forall i :: 0 <= i < |u[1..]| ==> !IsDigit(u[1..][i]);
      }
    }
  }

  /** A `-` then digits is read as the negated integer. */
  lemma {:induction false} NegativeScan(a: string)
    requires a != [] && AllDigits(a)
    ensures ScanDecimal("-" + a) == Some(Scan(|a| + 1, -(DigitsValue(a) as real)))
  {
    var s := "-" + a;
    UnsignedScanOfInteger(a);
    assert |s| > 0 && s[0] == '-' && s[1..] == a;
  }

  /** A run of digits alone is read whole. */
  lemma {:induction false} UnsignedScanOfInteger(a: string)
    requires a != [] && AllDigits(a)
    ensures ScanUnsigned(a) == Some(Scan(|a|, DigitsValue(a) as real))
  {
    assert a + [] == a;
    ScanOfInteger(a, []);
    assert a[0] != '-';
  }

  /** Digits with a fraction denote a non-negative value. */
  lemma PointValueNonNegative(a: string, b: string)
    requires AllDigits(a) && AllDigits(b)
    ensures PointValue(a, b) >= 0.0
  {
    ShiftNonNegative(DigitsValue(b) as real, |b|);
  }

  lemma {:induction false} ShiftNonNegative(x: real, k: nat)
    requires x >= 0.0
    ensures Shift(x, k) >= 0.0
    decreases k
  {
    if k > 0 {
      ShiftNonNegative(x / 10.0, k - 1);
    }
  }
}
