/**
 * The page and the endpoint together: the page posts `{ url }`
 * (src/app/page.tsx:46-50), reads the reply (src/app/page.tsx:51-53) and
 * draws the mock metrics it gets back.
 */
module EndToEnd {
  import opened Wrappers
  import opened JsNumber
  import opened Market
  import opened MetricValues
  import opened Bars
  import opened AnalyzeRoute
  import opened RequestCycle

  /** `JSON.stringify({ url })` read back by `req.json()`: the field is the page's string. */
  function RequestField(url: string): (f: Option<Json>)
    ensures f.Some? && f.value.JString? && f.value.s == url
  {
    Some(JString(url))
  }

  /** What the page reads from a response: `res.ok` (a 2xx status), `data.error`, `data.metrics`. */
  function ToReply(response: Response): (r: Reply)
    ensures r.ok <==> 200 <= response.status <= 299
    ensures response.body.ErrorBody? ==> r.error == Some(response.body.error) && r.metrics.None?
    ensures response.body.MockBody? ==> r.error.None? && r.metrics == Some(response.body.metrics)
  {
    var ok := 200 <= response.status <= 299;
    match response.body
    case ErrorBody(error) => Reply(ok, Some(error), None)
    case MockBody(_, metrics, _) => Reply(ok, None, Some(metrics))
  }

  /** The outcome of the page's request when the endpoint answers it. */
  function ServerOutcome(url: string): (o: FetchOutcome)
    ensures o.Delivered?
    ensures o.reply == ToReply(Post(RequestField(url)))
  {
    Delivered(ToReply(Post(RequestField(url))))
  }

  /** The button only fires with a non-empty url, so the endpoint never rejects the page. */
  lemma PageRequestsAccepted(s: ViewState)
    requires AnalyzeEnabled(s)
    ensures Post(RequestField(s.url)).status == Ok
    ensures ServerOutcome(s.url).reply == Reply(true, None, Some(MockMetrics))
  {
  }

  /** Pressing Analyze and receiving the endpoint's answer shows the mock metrics and no error. */
  lemma AnalyzeShowsMock(s: ViewState)
    requires AnalyzeEnabled(s)
    ensures var r := Run(s, [ClickAnalyze, Settle(ServerOutcome(s.url))]);
            r.metrics == Some(MockMetrics) && r.error == "" && !r.loading && r.url == s.url
  {
    PageRequestsAccepted(s);
    SuccessClearsError(s, ServerOutcome(s.url).reply);
  }

  /** A rejection, should one reach the page, is shown as the endpoint's message. */
  lemma RejectionShownAsError(s: ViewState, field: Option<Json>)
    requires Post(field).status == BadRequest
    ensures ToReply(Post(field)) == Reply(false, Some(InvalidUrl), None)
    ensures var r := CompleteRequest(StartRequest(s), Delivered(ToReply(Post(field))));
            r.error == InvalidUrl && r.metrics.None? && !r.loading
  {
  }

  /** The mock record's magnitudes as the page reads them. */
  lemma MockMagnitudes()
    ensures ParseMetricValue(MockMetrics.liquidity) == 12345.0
    ensures ParseMetricValue(MockMetrics.volume) == 67890.0
  {
  }

  /** The mock record drawn: volume fills its bar and liquidity is its share of volume. */
  lemma MockStrengthBars()
    ensures StrengthWidths(Some(MockMetrics)) == StrengthBars(12345.0 / 67890.0 * 100.0, 100.0)
  {
    MockMagnitudes();
    LargerValueFillsBar(12345.0, 67890.0);
    assert StrengthMax(12345.0, 67890.0) == 67890.0;
  }

  /** The mock probability 0.42 draws a 42% bar. */
  lemma MockProbabilityBar()
    ensures ProbabilityWidth(Some(MockMetrics)) == 42.0
  {
  }

  /** The mock series draws four bars at its prices as percentages. */
  lemma MockHistogram()
    ensures HistogramHeights(Some(MockMetrics)) == [40.0, 41.0, 42.0, 43.0]
  {
    var h := HistogramHeights(Some(MockMetrics));
    assert Series(Some(MockMetrics)) == Some([0.4, 0.41, 0.42, 0.43]);
    assert h[0] == 40.0 && h[1] == 41.0 && h[2] == 42.0 && h[3] == 43.0;
  }
}
