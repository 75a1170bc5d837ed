/**
 * The string sanitiser of `parseMetricValue` (src/app/page.tsx:24): every
 * comma is removed, then every character other than a digit, `.` or `-`.
 */
module Sanitizer {
  import opened Chars

  /** `value.replace(/,/g, "")`: the non-comma characters, in order. */
  function RemoveCommas(s: string): (r: string)
    ensures |r| <= |s|
    ensures forall i :: 0 <= i < |r| ==> !IsComma(r[i])
  {
    if s == [] then []
    else RemoveCommas(s[..|s| - 1]) + (if IsComma(s[|s| - 1]) then [] else [s[|s| - 1]])
  }

  /** `.replace(/[^0-9.-]/g, "")`: the digits, points and minus signs, in order. */
  function KeepNumeric(s: string): (r: string)
    ensures |r| <= |s|
    ensures forall i :: 0 <= i < |r| ==> IsNumericChar(r[i])
  {
    if s == [] then []
    else KeepNumeric(s[..|s| - 1]) + (if IsNumericChar(s[|s| - 1]) then [s[|s| - 1]] else [])
  }

  /**
   * Both passes together. The comma pass is subsumed by the second, so the
   * result is exactly the numeric characters of the input.
   */
  function Sanitize(s: string): (r: string)
    ensures forall i :: 0 <= i < |r| ==> IsNumericChar(r[i])
    ensures r == KeepNumeric(s)
  {
    CommaPassSubsumed(s);
    KeepNumeric(RemoveCommas(s))
  }

  /** The comma pass distributes over concatenation: it keeps the order of what it keeps. */
  lemma {:induction false} RemoveCommasAppend(a: string, b: string)
    ensures RemoveCommas(a + b) == RemoveCommas(a) + RemoveCommas(b)
    decreases |b|
  {
    if b == [] {
      assert a + b == a;
    } else {
      assert (a + b)[..|a + b| - 1] == a + b[..|b| - 1];
      RemoveCommasAppend(a, b[..|b| - 1]);
    }
  }

  /** On one character: dropped exactly when it is a comma. */
  lemma RemoveCommasChar(c: char)
    ensures RemoveCommas([c]) == if IsComma(c) then [] else [c]
  {
    assert [c][..0] == [];
  }

  /** Removing commas first does not change what the numeric pass keeps. */
  lemma {:induction false} CommaPassSubsumed(s: string)
    ensures KeepNumeric(RemoveCommas(s)) == KeepNumeric(s)
  {
    if s != [] {
      var init, last := s[..|s| - 1], s[|s| - 1];
      CommaPassSubsumed(init);
      var kept := if IsComma(last) then [] else [last];
      KeepNumericAppend(RemoveCommas(init), kept);
      if !IsComma(last) {
        assert [last][..0] == [];
      }
    }
  }

  /** The numeric pass distributes over concatenation. */
  lemma {:induction false} KeepNumericAppend(a: string, b: string)
    ensures KeepNumeric(a + b) == KeepNumeric(a) + KeepNumeric(b)
    decreases |b|
  {
    if b == [] {
      assert a + b == a;
    } else {
      assert (a + b)[..|a + b| - 1] == a + b[..|b| - 1];
      KeepNumericAppend(a, b[..|b| - 1]);
    }
  }

  /** The sanitiser works character by character: it commutes with concatenation. */
  lemma SanitizeAppend(a: string, b: string)
    ensures Sanitize(a + b) == Sanitize(a) + Sanitize(b)
  {
    KeepNumericAppend(a, b);
  }

  /** On one character: kept exactly when it is a digit, `.` or `-`. */
  lemma SanitizeChar(c: char)
    ensures Sanitize([c]) == if IsNumericChar(c) then [c] else []
  {
    assert [c][..0] == [];
  }

  /** Text made only of digits, `.` and `-` passes through unchanged. */
  lemma {:induction false} AllNumericKept(s: string)
    requires forall i :: 0 <= i < |s| ==> IsNumericChar(s[i])
    ensures Sanitize(s) == s
    decreases |s|
  {
    if s != [] {
      AllNumericKept(s[..|s| - 1]);
      assert s[..|s| - 1] + [s[|s| - 1]] == s;
    }
  }

  /** The sanitiser adds no digits: digit-free text stays digit-free. */
  lemma {:induction false} NoDigitsSurvive(s: string)
    requires forall i :: 0 <= i < |s| ==> !IsDigit(s[i])
    ensures forall i :: 0 <= i < |KeepNumeric(s)| ==> !IsDigit(KeepNumeric(s)[i])
    decreases |s|
  {
    if s != [] {
      var init, last := s[..|s| - 1], s[|s| - 1];
      NoDigitsSurvive(init);
      var r := KeepNumeric(s);
      assert r == KeepNumeric(init) + (if IsNumericChar(last) then [last] else []);
      forall i | 0 <= i < |r|
        ensures !IsDigit(r[i])
      {
        if i >= |KeepNumeric(init)| {
          assert r[i] == last;
        }
      }
    }
  }

  /** A currency sign before and a separator between two pieces are dropped. */
  lemma SanitizeCurrencyAmount(a: string, b: string)
    ensures Sanitize("$" + a + "," + b) == Sanitize(a) + Sanitize(b)
  {
    assert Sanitize("$" + a) == Sanitize(a) by {
      DropNonNumeric([], '$', a);
      assert [] + ['$'] + a == "$" + a;
    }
    SanitizeSeparator("$" + a, b);
  }

  /** A separator between two pieces is dropped. */
  lemma SanitizeSeparator(a: string, b: string)
    ensures Sanitize(a + "," + b) == Sanitize(a) + Sanitize(b)
  {
    DropNonNumeric(a, ',', b);
  }

  /** A character other than a digit, `.` or `-` is dropped wherever it stands. */
  lemma DropNonNumeric(a: string, c: char, b: string)
    requires !IsNumericChar(c)
    ensures Sanitize(a + [c] + b) == Sanitize(a) + Sanitize(b)
  {
    KeepNumericAppend(a + [c], b);
    KeepNumericAppend(a, [c]);
    assert [c][..0] == [];
    assert KeepNumeric([c]) == [];
    assert KeepNumeric(a) + [] == KeepNumeric(a);
  }

  /** Sanitising a sanitised string changes nothing. */
  lemma SanitizeIdempotent(s: string)
    ensures Sanitize(Sanitize(s)) == Sanitize(s)
  {
    AllNumericKept(Sanitize(s));
  }
}
