/** The `Metrics` record the endpoint returns and the page renders (src/app/page.tsx:4-11). */
module Market {
  import opened Wrappers
  import opened JsNumber

  /** A `string | number` field: a JavaScript number or numeric-looking text. */
  datatype MetricValue = Number(num: Num) | Text(text: string)

  datatype Metrics = Metrics(
    liquidity: MetricValue,
    volume: MetricValue,
    impliedProbability: real,
    spread: MetricValue,
    timeToResolution: string,
    historicalPrices: Option<seq<real>>)
}
