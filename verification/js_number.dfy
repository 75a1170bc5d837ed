/**
 * JavaScript numbers as the dashboard sees them. Finite values are modelled
 * as mathematical reals; the three non-finite IEEE-754 values are kept as
 * separate constructors because the page maps each of them to 0.
 */
module JsNumber {

  datatype Num = Finite(val: real) | NaN | PosInfinity | NegInfinity {

    /** `Number.isFinite` */
    predicate IsFinite() {
      Finite?
    }
  }

  /** `Math.max` of two finite numbers. */
  function Max(a: real, b: real): (r: real)
    ensures r >= a && r >= b
    ensures r == a || r == b
  {
    if a >= b then a else b
  }

  /** `Math.min` of two finite numbers. */
  function Min(a: real, b: real): (r: real)
    ensures r <= a && r <= b
    ensures r == a || r == b
  {
    if a <= b then a else b
  }

  /**
   * `Math.max(lo, Math.min(hi, x))`, the clamp idiom the page writes out at
   * every bar.
   */
  function Clamp(x: real, lo: real, hi: real): (r: real)
    requires lo <= hi
    ensures lo <= r <= hi
    ensures lo <= x <= hi ==> r == x
    ensures x < lo ==> r == lo
    ensures hi < x ==> r == hi
  {
    Max(lo, Min(hi, x))
  }
}
