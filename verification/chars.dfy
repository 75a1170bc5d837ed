/**
 * The character classes of `parseMetricValue` (src/app/page.tsx:24): the
 * sanitiser keeps the digits, `.` and `-`, and parseFloat reads nothing else.
 */
module Chars {
  predicate IsDigit(c: char) {
    '0' <= c <= '9'
  }

  /** The characters `[0-9.-]`, the ones the sanitiser keeps. */
  predicate IsNumericChar(c: char) {
    IsDigit(c) || c == '.' || c == '-'
  }

  predicate IsComma(c: char) {
    c == ','
  }
}
