/**
 * The mock analysis endpoint, `POST /api/analyze`
 * (src/app/api/analyze/route.ts): it validates the `url` field of the JSON
 * body and answers either 400 with an error or 200 with fixed mock metrics.
 */
module AnalyzeRoute {
  import opened Wrappers
  import opened JsNumber
  import opened Market

  /** A JSON value as `req.json()` decodes it (nested structure is not needed here). */
  datatype Json =
    | JNull
    | JBool(b: bool)
    | JNumber(n: real)
    | JString(s: string)
    | JArray
    | JObject

  /** JavaScript truthiness of a field read from the body; an absent field is `undefined`. */
  predicate Truthy(field: Option<Json>) {
    match field
    case None => false
    case Some(JNull) => false
    case Some(JBool(b)) => b
    case Some(JNumber(n)) => n != 0.0
    case Some(JString(s)) => s != ""
    case Some(JArray) => true
    case Some(JObject) => true
  }

  /** `typeof url === 'string'` */
  predicate IsString(field: Option<Json>) {
    field.Some? && field.value.JString?
  }

  datatype ResponseBody =
    | ErrorBody(error: string)
    | MockBody(url: string, metrics: Metrics, message: string)

  datatype Response = Response(status: nat, body: ResponseBody)

  const BadRequest: nat := 400
  const Ok: nat := 200
  const InvalidUrl: string := "Invalid URL"
  const MockMessage: string := "This is a mock response. Integrate with your backend for real data."

  /** The record every accepted request receives, whatever its url. */
  const MockMetrics: Metrics := Metrics(
    Number(Finite(12345.0)),
    Number(Finite(67890.0)),
    0.42,
    Number(Finite(0.03)),
    "3 days",
    Some([0.4, 0.41, 0.42, 0.43]))

  /**
   * The handler, given the `url` field of the request body. The guard is
   * written as in the source (`!url || typeof url !== 'string'`); its
   * contract says what it amounts to: exactly a non-empty string is accepted,
   * and an accepted url is echoed back beside the mock metrics.
   */
  function Post(url: Option<Json>): (r: Response)
    ensures r.status == BadRequest <==> !(url.Some? && url.value.JString? && url.value.s != "")
    ensures r.status == BadRequest ==> r.body == ErrorBody(InvalidUrl)
    ensures r.status != BadRequest ==>
              r.status == Ok && r.body == MockBody(url.value.s, MockMetrics, MockMessage)
  {
    if !Truthy(url) || !IsString(url) then Response(BadRequest, ErrorBody(InvalidUrl))
    else Response(Ok, MockBody(url.value.s, MockMetrics, MockMessage))
  }

  /** Every rejected request looks the same, whatever made it invalid. */
  lemma RejectionsAgree(a: Option<Json>, b: Option<Json>)
    requires Post(a).status == BadRequest && Post(b).status == BadRequest
    ensures Post(a) == Post(b)
  {
  }

  /** The metrics do not depend on the url: two accepted requests differ only in the echo. */
  lemma MetricsIgnoreUrl(a: string, b: string)
    requires a != "" && b != ""
    ensures Post(Some(JString(a))).body.metrics == Post(Some(JString(b))).body.metrics
    ensures Post(Some(JString(a))).body.url == a
  {
  }

  /** A truthy value that is not a string is still rejected. */
  lemma TruthyNonStringRejected()
    ensures Post(Some(JNumber(1.0))).status == BadRequest
    ensures Post(Some(JBool(true))).status == BadRequest
    ensures Post(Some(JObject)).status == BadRequest
    ensures Post(Some(JArray)).status == BadRequest
  {
  }

  /** The mock record is well inside what the page draws without clamping. */
  lemma MockMetricsInRange()
    ensures 0.0 <= MockMetrics.impliedProbability <= 1.0
    ensures MockMetrics.historicalPrices.Some? && |MockMetrics.historicalPrices.value| == 4
    ensures forall i :: 0 <= i < |MockMetrics.historicalPrices.value| ==>
              0.0 <= MockMetrics.historicalPrices.value[i] <= 1.0
    ensures MockMetrics.liquidity.Number? && MockMetrics.liquidity.num.Finite? && MockMetrics.liquidity.num.val >= 0.0
    ensures MockMetrics.volume.Number? && MockMetrics.volume.num.Finite? && MockMetrics.volume.num.val >= 0.0
    ensures MockMetrics.spread.Number? && MockMetrics.spread.num.Finite? && MockMetrics.spread.num.val >= 0.0
  {
  }
}
