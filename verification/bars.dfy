/**
 * The visualisation arithmetic of the dashboard page: the two market
 * strength bars (src/app/page.tsx:29-39), the implied-probability bar
 * (src/app/page.tsx:152) and the historical-price histogram
 * (src/app/page.tsx:101-104). All widths and heights are percentages.
 */
module Bars {
  import opened Wrappers
  import opened JsNumber
  import opened Market
  import opened MetricValues

  /** Width of every bar while no metrics are shown. */
  const IdleWidth: real := 22.0
  /** Lower clamp of a strength bar, so that a tiny value stays visible. */
  const MinStrengthWidth: real := 2.0
  /** Lower clamp of a histogram bar. */
  const MinBarHeight: real := 12.0
  /** Height of every placeholder histogram bar. */
  const PlaceholderHeight: real := 18.0
  /** Number of placeholder histogram bars. */
  const PlaceholderBars: nat := 7

  // ---------------------------------------------------------------------------
  // Strength bars
  // ---------------------------------------------------------------------------

  /** `Math.max(liquidityValue, volumeValue, 1)`: the common scale of both bars. */
  function StrengthMax(l: real, v: real): (m: real)
    ensures m >= 1.0 && m >= l && m >= v
    ensures m == l || m == v || m == 1.0
  {
    Max(Max(l, v), 1.0)
  }

  /** One strength bar: the value's share of the scale, clamped to [2, 100]. */
  function StrengthWidth(x: real, m: real): (w: real)
    requires m > 0.0
    ensures MinStrengthWidth <= w <= 100.0
  {
    Clamp(x / m * 100.0, MinStrengthWidth, 100.0)
  }

  /** A zero value keeps a 2% sliver; a value equal to the scale fills the bar. */
  lemma StrengthWidthExamples()
    ensures StrengthWidth(0.0, 100.0) == MinStrengthWidth
    ensures StrengthWidth(100.0, 100.0) == 100.0
  {
    FullShare(100.0);
  }

  datatype StrengthBars = StrengthBars(liquidity: real, volume: real)

  /**
   * Both strength bars of the page. Without metrics both sit at 22%;
   * otherwise they are drawn from the two parsed magnitudes.
   */
  function StrengthWidths(metrics: Option<Metrics>): (r: StrengthBars)
    ensures metrics.None? ==> r == StrengthBars(IdleWidth, IdleWidth)
    ensures metrics.Some? ==>
              r == ScaledBars(ParseMetricValue(metrics.value.liquidity), ParseMetricValue(metrics.value.volume))
  {
    match metrics
    case None => StrengthBars(IdleWidth, IdleWidth)
    case Some(m) => ScaledBars(ParseMetricValue(m.liquidity), ParseMetricValue(m.volume))
  }

  /**
   * The bars for two non-negative magnitudes: each is its value's share of the
   * larger value (at least 1). That share never exceeds 100%, so only the 2%
   * floor ever applies.
   */
  function ScaledBars(l: real, v: real): (r: StrengthBars)
    requires l >= 0.0 && v >= 0.0
    ensures MinStrengthWidth <= r.liquidity <= 100.0 && MinStrengthWidth <= r.volume <= 100.0
    ensures r.liquidity == Max(MinStrengthWidth, l / StrengthMax(l, v) * 100.0)
    ensures r.volume == Max(MinStrengthWidth, v / StrengthMax(l, v) * 100.0)
  {
    var scale := StrengthMax(l, v);
    UpperClampIdle(l, scale);
    UpperClampIdle(v, scale);
    StrengthBars(StrengthWidth(l, scale), StrengthWidth(v, scale))
  }

  /** A share of a scale that bounds it is at most 100%, so the upper clamp is idle. */
  lemma UpperClampIdle(x: real, m: real)
    requires 0.0 <= x <= m && m > 0.0
    ensures 0.0 <= x / m * 100.0 <= 100.0
    ensures StrengthWidth(x, m) == Max(MinStrengthWidth, x / m * 100.0)
  {
    RatioAtMostOne(x, m);
  }

  lemma RatioAtMostOne(x: real, m: real)
    requires 0.0 <= x <= m && m > 0.0
    ensures 0.0 <= x / m <= 1.0
  {
    assert x / m * m == x;
  }

  lemma RatioMonotone(x: real, y: real, m: real)
    requires x <= y && m > 0.0
    ensures x / m <= y / m
  {
    assert x / m * m == x;
    assert y / m * m == y;
  }

  /** The larger value, once it reaches 1, fills its bar. */
  lemma LargerValueFillsBar(l: real, v: real)
    requires l >= 0.0 && v >= 0.0
    ensures l >= v && l >= 1.0 ==> ScaledBars(l, v).liquidity == 100.0
    ensures v >= l && v >= 1.0 ==> ScaledBars(l, v).volume == 100.0
  {
    if l >= v && l >= 1.0 {
      assert StrengthMax(l, v) == l;
      FullShare(l);
    }
    if v >= l && v >= 1.0 {
      assert StrengthMax(l, v) == v;
      FullShare(v);
    }
  }

  lemma FullShare(x: real)
    requires x > 0.0
    ensures StrengthWidth(x, x) == 100.0
  {
    assert x / x == 1.0;
  }

  /** While both values stay below 1 the scale is 1: each bar is its value as a percentage. */
  lemma SmallValuesReadAsPercent(l: real, v: real)
    requires 0.0 <= l <= 1.0 && 0.0 <= v <= 1.0
    ensures ScaledBars(l, v).liquidity == Max(MinStrengthWidth, l * 100.0)
    ensures ScaledBars(l, v).volume == Max(MinStrengthWidth, v * 100.0)
  {
    assert StrengthMax(l, v) == 1.0;
  }

  /** The bars keep the order of the values they show. */
  lemma ScaledBarsMonotone(l: real, v: real)
    requires l >= 0.0 && v >= 0.0
    ensures l <= v ==> ScaledBars(l, v).liquidity <= ScaledBars(l, v).volume
    ensures v <= l ==> ScaledBars(l, v).volume <= ScaledBars(l, v).liquidity
  {
    var scale := StrengthMax(l, v);
    if l <= v {
      RatioMonotone(l, v, scale);
    } else {
      RatioMonotone(v, l, scale);
    }
  }

  /** When neither bar is held up by the 2% floor, the bars are in the ratio of the values. */
  lemma ScaledBarsProportional(l: real, v: real)
    requires l >= 0.0 && v >= 0.0
    requires ScaledBars(l, v).liquidity > MinStrengthWidth
    requires ScaledBars(l, v).volume > MinStrengthWidth
    ensures ScaledBars(l, v).liquidity * v == ScaledBars(l, v).volume * l
  {
    var r := ScaledBars(l, v);
    CrossProduct(r.liquidity, r.volume, l, v, StrengthMax(l, v));
  }

  lemma CrossProduct(wl: real, wv: real, l: real, v: real, m: real)
    requires m > 0.0 && wl == l / m * 100.0 && wv == v / m * 100.0
    ensures wl * v == wv * l
  {
    var a := l / m;
    var b := v / m;
    assert a * m == l;
    assert b * m == v;
    assert a * v == a * (b * m);
    assert b * l == b * (a * m);
  }

  // ---------------------------------------------------------------------------
  // Implied-probability bar
  // ---------------------------------------------------------------------------

  /**
   * The probability bar: `impliedProbability * 100` clamped to [0, 100], or 22%
   * without metrics. A probability already in [0, 1] is shown as-is.
   */
  function ProbabilityWidth(metrics: Option<Metrics>): (w: real)
    ensures metrics.None? ==> w == IdleWidth
    ensures 0.0 <= w <= 100.0
    ensures metrics.Some? && 0.0 <= metrics.value.impliedProbability <= 1.0 ==>
              w == metrics.value.impliedProbability * 100.0
    ensures metrics.Some? && metrics.value.impliedProbability < 0.0 ==> w == 0.0
    ensures metrics.Some? && metrics.value.impliedProbability > 1.0 ==> w == 100.0
  {
    match metrics
    case None => IdleWidth
    case Some(m) => Clamp(m.impliedProbability * 100.0, 0.0, 100.0)
  }

  /** A higher probability never gives a narrower bar. */
  lemma ProbabilityWidthMonotone(a: Metrics, b: Metrics)
    requires a.impliedProbability <= b.impliedProbability
    ensures ProbabilityWidth(Some(a)) <= ProbabilityWidth(Some(b))
  {
  }

  /** Probabilities 0, 1 and 0.42 draw bars of 0%, 100% and 42%. */
  lemma ProbabilityWidthExamples(m: Metrics)
    ensures m.impliedProbability == 0.0 ==> ProbabilityWidth(Some(m)) == 0.0
    ensures m.impliedProbability == 1.0 ==> ProbabilityWidth(Some(m)) == 100.0
    ensures m.impliedProbability == 0.42 ==> ProbabilityWidth(Some(m)) == 42.0
  {
  }

  // ---------------------------------------------------------------------------
  // Historical-price histogram
  // ---------------------------------------------------------------------------

  /** One histogram bar: the price as a percentage, clamped to [12, 100]. */
  function BarHeight(point: real): (h: real)
    ensures MinBarHeight <= h <= 100.0
    ensures 0.12 <= point <= 1.0 ==> h == point * 100.0
    ensures point < 0.12 ==> h == MinBarHeight
    ensures point > 1.0 ==> h == 100.0
  {
    Clamp(point * 100.0, MinBarHeight, 100.0)
  }

  /** A higher price never gives a lower bar. */
  lemma BarHeightMonotone(p: real, q: real)
    requires p <= q
    ensures BarHeight(p) <= BarHeight(q)
  {
  }

  /** The bars of a non-empty series, one per point, in order. */
  function BarHeights(points: seq<real>): (r: seq<real>)
    ensures |r| == |points|
    ensures forall i :: 0 <= i < |r| ==> r[i] == BarHeight(points[i])
  {
    if points == [] then []
    else BarHeights(points[..|points| - 1]) + [BarHeight(points[|points| - 1])]
  }

  predicate NonDecreasing(s: seq<real>) {
    forall i, j :: 0 <= i <= j < |s| ==> s[i] <= s[j]
  }

  /** A rising price series draws a rising histogram. */
  lemma BarHeightsKeepOrder(points: seq<real>)
    requires NonDecreasing(points)
    ensures NonDecreasing(BarHeights(points))
  {
    var r := BarHeights(points);
    forall i, j | 0 <= i <= j < |r|
      ensures r[i] <= r[j]
    {
      BarHeightMonotone(points[i], points[j]);
    }
  }

  /** The bars of a concatenation are the bars of its parts, concatenated. */
  lemma BarHeightsAppend(a: seq<real>, b: seq<real>)
    ensures BarHeights(a + b) == BarHeights(a) + BarHeights(b)
  {
  }

  /** The histogram series the page renders, if any: absent and empty series are alike. */
  function Series(metrics: Option<Metrics>): (r: Option<seq<real>>)
    ensures r.Some? <==> metrics.Some? && metrics.value.historicalPrices.Some? &&
                         |metrics.value.historicalPrices.value| > 0
    ensures r.Some? ==> r.value == metrics.value.historicalPrices.value
  {
    if metrics.Some? && metrics.value.historicalPrices.Some? && |metrics.value.historicalPrices.value| > 0
    then metrics.value.historicalPrices
    else None
  }

  /**
   * The histogram: a bar per price of a non-empty series, otherwise seven
   * placeholder bars at 18%. There is always at least one bar and every bar
   * lies in [12, 100].
   */
  function HistogramHeights(metrics: Option<Metrics>): (r: seq<real>)
    ensures |r| >= 1
    ensures forall i :: 0 <= i < |r| ==> MinBarHeight <= r[i] <= 100.0
    ensures Series(metrics).None? ==>
              |r| == PlaceholderBars && forall i :: 0 <= i < |r| ==> r[i] == PlaceholderHeight
    ensures Series(metrics).Some? ==>
              |r| == |Series(metrics).value| &&
              forall i :: 0 <= i < |r| ==> r[i] == BarHeight(Series(metrics).value[i])
  {
    match Series(metrics)
    case None => seq(PlaceholderBars, _ => PlaceholderHeight)
    case Some(points) => BarHeights(points)
  }
}
