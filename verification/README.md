# Polymarket dashboard: metric normalisation, bar geometry and the analyze round trip

This project models the only part of the Polymarket dashboard that computes anything. It has two sources.

- **The dashboard page** (`src/app/page.tsx`):
  - `parseMetricValue` turns a `string | number` metric into a non-negative magnitude. It clamps numbers and sanitises text, then reads the text with `Number.parseFloat`.
  - The two strength bars (liquidity and volume) are scaled against `max(l, v, 1)` and clamped to [2, 100].
  - The implied-probability bar is clamped to [0, 100].
  - The historical-price histogram has one bar per point, clamped to [12, 100]. With no series it shows seven placeholder bars at 18.
  - `handleAnalyze` and the Analyze button's guard make up the request cycle.
- **The mock endpoint** (`src/app/api/analyze/route.ts`), `POST /api/analyze`:
  - It rejects a url that is falsy or not a string with 400 `"Invalid URL"`.
  - Otherwise it echoes the url beside a fixed metrics record and an advisory message.

The modules follow that structure.

- `Wrappers`: `Option`.
- `JsNumber`: JavaScript numbers as finite reals plus NaN and the two infinities; `Math.max`, `Math.min` and the clamp idiom.
- `Decimal`: `Number.parseFloat` (section 19.2.4 of ECMA-262) over the alphabet `0-9 . -`, described twice:
  - declaratively, as the value of the longest prefix that is a decimal literal;
  - as a left-to-right scanner, proved to agree with the declarative reference.
- `Chars`: the character classes the sanitiser and parseFloat share.
- `Sanitizer`: the two `replace` passes.
- `Market`: the `Metrics` record.
- `MetricValues`: `parseMetricValue`, with general lemmas on the shapes of text it reads.
- `MetricExamples`: concrete inputs: currency amounts, grouped decimals, negatives, stray points and minus signs, and text without digits.
- `Bars`: the strength, probability and histogram geometry.
- `AnalyzeRoute`: the POST handler.
- `RequestCycle`: the page state and its transitions. The network reply arrives as its own event, because the handler awaits it.
- `EndToEnd`: the page and the endpoint composed.

Two consequences of the code are easy to miss:

- The endpoint also rejects the empty string, because its guard at `src/app/api/analyze/route.ts:9` tests falsiness.
- A thrown `Error` with an empty message is shown as an empty error. A non-empty error is guaranteed only for a failed reply and for a thrown non-`Error` (`RequestCycle.FailureClearsMetrics`, `RequestCycle.ThrowClearsMetrics`).

## Model

| member | source | states |
|---|---|---|
| `JsNumber.Max` | src/app/page.tsx:21 | `Math.max` of two numbers is at least each of them and is one of them |
| `JsNumber.Min` | src/app/page.tsx:34 | `Math.min` of two numbers is at most each of them and is one of them |
| `JsNumber.Clamp` | src/app/page.tsx:34 | `max(lo, min(hi, x))` lies in [lo, hi], is `x` inside the range and the nearer bound outside it |
| `Decimal.ParseFloat` | src/app/page.tsx:25 | over digits, `.` and `-`, parseFloat is NaN exactly when no prefix is a decimal literal, and otherwise the value of the longest literal prefix |
| `Decimal.ScanDecimalFindsLongestLiteral` | src/app/page.tsx:25 | the scanner finds nothing exactly when no prefix is a literal; otherwise it stops at the longest literal prefix and returns that literal's value |
| `Decimal.LongestLiteralPrefixUnique` | src/app/page.tsx:25 | the longest literal prefix, when there is one, is unique, so parseFloat's result is well defined |
| `Decimal.LeadingDigits` | src/app/page.tsx:25 | the leading run of digits is all digits and is followed by a non-digit or the end |
| `Decimal.NoDigitNoLiteral` | src/app/page.tsx:25-26 | text without a digit has no literal prefix, so parseFloat gives NaN |
| `Decimal.ScanOfInteger` | src/app/page.tsx:25 | digits followed by neither a digit nor a point are read as the integer they spell |
| `Decimal.ScanOfFraction` | src/app/page.tsx:25 | digits, a point, digits, then a non-digit are read as that decimal number, ending before the non-digit |
| `Decimal.NegativeScan` | src/app/page.tsx:25 | a minus sign then digits is read as the negated integer |
| `Decimal.PointValueNonNegative` | src/app/page.tsx:25 | an unsigned decimal literal denotes a non-negative value |
| `Sanitizer.RemoveCommas` | src/app/page.tsx:24 | the first pass leaves no comma and never lengthens the text |
| `Sanitizer.KeepNumeric` | src/app/page.tsx:24 | the second pass leaves only digits, points and minus signs and never lengthens the text |
| `Sanitizer.Sanitize` | src/app/page.tsx:24 | the two passes together keep exactly what the second pass alone keeps, so only digits, `.` and `-` remain |
| `Sanitizer.RemoveCommasAppend` | src/app/page.tsx:24 | the comma pass distributes over concatenation, so every character it keeps stays in order |
| `Sanitizer.RemoveCommasChar` | src/app/page.tsx:24 | a single character is dropped by the comma pass exactly when it is a comma |
| `Sanitizer.CommaPassSubsumed` | src/app/page.tsx:24 | removing commas first changes nothing that the numeric pass keeps |
| `Sanitizer.KeepNumericAppend` | src/app/page.tsx:24 | the numeric pass distributes over concatenation, so it preserves order |
| `Sanitizer.SanitizeAppend` | src/app/page.tsx:24 | the sanitiser distributes over concatenation |
| `Sanitizer.SanitizeChar` | src/app/page.tsx:24 | a single character is kept exactly when it is a digit, `.` or `-` |
| `Sanitizer.AllNumericKept` | src/app/page.tsx:24 | text made only of digits, `.` and `-` passes through unchanged |
| `Sanitizer.NoDigitsSurvive` | src/app/page.tsx:24 | the sanitiser adds no digits |
| `Sanitizer.DropNonNumeric` | src/app/page.tsx:24 | any other character is dropped wherever it stands |
| `Sanitizer.SanitizeCurrencyAmount` | src/app/page.tsx:24 | a leading `$` and a `,` separator are both dropped |
| `Sanitizer.SanitizeSeparator` | src/app/page.tsx:24 | a `,` separator is dropped |
| `Sanitizer.SanitizeIdempotent` | src/app/page.tsx:24 | sanitising twice is the same as sanitising once |
| `MetricValues.ParseMetricValue` | src/app/page.tsx:19-27 | the result is never negative; a finite number is clamped at 0; a non-finite number gives 0; text with no literal prefix after sanitising gives 0; other text gives the longest literal prefix of the sanitised text, clamped at 0 |
| `MetricValues.NonNegativeNumberUnchanged` | src/app/page.tsx:20-21 | a non-negative finite number passes through unchanged |
| `MetricValues.TextReadsAsScan` | src/app/page.tsx:24-26 | text reads as the scanned value of its sanitised form, clamped at 0 |
| `MetricValues.DigitFreeTextIsZero` | src/app/page.tsx:24-26 | text with no digit at all reads as 0 |
| `MetricValues.IntegerText` | src/app/page.tsx:24-26 | a run of digits reads as the integer it spells |
| `MetricValues.NegativeTextIsZero` | src/app/page.tsx:24-26 | a minus sign then digits reads as 0 |
| `MetricValues.DecimalText` | src/app/page.tsx:24-26 | digits, a point and digits read as the decimal number they spell |
| `MetricValues.SecondPointEndsNumber` | src/app/page.tsx:24-26 | a second point ends the number: `a.b.c` reads as `a.b` |
| `MetricValues.InnerMinusEndsNumber` | src/app/page.tsx:24-26 | a minus sign after the digits ends the number: `a-c` reads as `a` |
| `MetricValues.CurrencyAndSeparatorIgnored` | src/app/page.tsx:24-26 | `$a,b` reads as the integer that the digits of `a` then `b` spell |
| `MetricValues.GroupedDecimalText` | src/app/page.tsx:24-26 | `a,b.c` reads as the decimal `ab.c` |
| `MetricValues.GroupedDecimalSanitized` | src/app/page.tsx:24 | `a,b.c` and `ab.c` sanitise alike |
| `MetricValues.SameSanitizedText` | src/app/page.tsx:24-26 | two texts with the same sanitised form read alike |
| `MetricExamples.DollarAmountExample` | src/app/page.tsx:24-26 | `"$12,345"` reads as 12345 |
| `MetricExamples.GroupedDecimalExample` | src/app/page.tsx:24-26 | `"12,345.50"` reads as 12345.5 |
| `MetricExamples.NegativeExample` | src/app/page.tsx:26 | `"-5"` reads as 0 |
| `MetricExamples.SecondPointExample` | src/app/page.tsx:25 | `"1.2.3"` reads as 1.2 |
| `MetricExamples.InnerMinusExample` | src/app/page.tsx:25 | `"1-2"` reads as 1 |
| `MetricExamples.EmptyTextExample` | src/app/page.tsx:25-26 | `""` reads as 0 |
| `MetricExamples.LettersExample` | src/app/page.tsx:24-26 | `"abc"` reads as 0 |
| `MetricExamples.LoneMinusExample` | src/app/page.tsx:25-26 | `"-"` reads as 0 |
| `MetricExamples.LonePointExample` | src/app/page.tsx:25-26 | `"."` reads as 0 |
| `MetricExamples.DigitsValueOf12345` | src/app/page.tsx:25 | the digits `12345` denote 12345 |
| `Bars.StrengthMax` | src/app/page.tsx:31 | the common scale is at least 1 and at least both values, and is one of the three |
| `Bars.StrengthWidth` | src/app/page.tsx:34 | one strength bar always lies in [2, 100] |
| `Bars.StrengthWidthExamples` | src/app/page.tsx:34 | a zero value keeps a 2% sliver; a value equal to the scale fills the bar |
| `Bars.StrengthWidths` | src/app/page.tsx:29-39 | without metrics both bars are 22; with metrics they are the scaled bars of the two parsed magnitudes |
| `Bars.ScaledBars` | src/app/page.tsx:33-39 | both bars lie in [2, 100] and each is `max(2, value / scale * 100)`: the 100 cap never binds |
| `Bars.UpperClampIdle` | src/app/page.tsx:34 | a value's share of a scale that bounds it is within [0, 100], so only the floor of 2 can change it |
| `Bars.LargerValueFillsBar` | src/app/page.tsx:31-39 | the larger magnitude, once it reaches 1, draws a full 100 bar |
| `Bars.SmallValuesReadAsPercent` | src/app/page.tsx:31-39 | while both magnitudes are at most 1 the scale is 1, so each bar is `max(2, value * 100)` |
| `Bars.ScaledBarsMonotone` | src/app/page.tsx:33-39 | the bars are ordered as the magnitudes are |
| `Bars.ScaledBarsProportional` | src/app/page.tsx:33-39 | when neither bar sits at the 2 floor, the bars are in the ratio of the magnitudes |
| `Bars.ProbabilityWidth` | src/app/page.tsx:152 | without metrics the bar is 22; otherwise it lies in [0, 100], is `p * 100` for p in [0, 1], 0 below and 100 above |
| `Bars.ProbabilityWidthMonotone` | src/app/page.tsx:152 | a higher probability never draws a narrower bar |
| `Bars.ProbabilityWidthExamples` | src/app/page.tsx:152 | probabilities 0, 1 and 0.42 draw 0, 100 and 42 |
| `Bars.BarHeight` | src/app/page.tsx:103 | a histogram bar lies in [12, 100]; it is `point * 100` for points in [0.12, 1], 12 below and 100 above |
| `Bars.BarHeightMonotone` | src/app/page.tsx:103 | a higher price never draws a lower bar |
| `Bars.BarHeights` | src/app/page.tsx:101-103 | one bar per point, in order, each the clamped height of its point |
| `Bars.BarHeightsKeepOrder` | src/app/page.tsx:101-103 | a non-decreasing series draws a non-decreasing histogram |
| `Bars.BarHeightsAppend` | src/app/page.tsx:101-103 | the bars of a concatenation are the concatenated bars |
| `Bars.Series` | src/app/page.tsx:101-102 | a series is drawn exactly when metrics are present with a non-empty `historicalPrices` |
| `Bars.HistogramHeights` | src/app/page.tsx:101-104 | there is always at least one bar, each in [12, 100]; without a series there are 7 bars of 18, otherwise one bar per point |
| `AnalyzeRoute.Post` | src/app/api/analyze/route.ts:9-25 | status 400 exactly when the url is not a non-empty string, with body `Invalid URL`; otherwise status 200 echoing the url with the mock metrics and the advisory message |
| `AnalyzeRoute.RejectionsAgree` | src/app/api/analyze/route.ts:9-10 | every rejected request gets the same response |
| `AnalyzeRoute.MetricsIgnoreUrl` | src/app/api/analyze/route.ts:14-23 | the metrics do not depend on the url; only the echo does |
| `AnalyzeRoute.TruthyNonStringRejected` | src/app/api/analyze/route.ts:9 | a truthy value that is not a string (number, boolean, object, array) is rejected |
| `AnalyzeRoute.MockMetricsInRange` | src/app/api/analyze/route.ts:16-23 | the mock probability and prices lie in [0, 1], the series has four points, and liquidity, volume and spread are non-negative finite numbers |
| `RequestCycle.InitialConsistent` | src/app/page.tsx:14-17 | the initial state is consistent and its button is disabled |
| `RequestCycle.StartRequest` | src/app/page.tsx:42-44 | starting a request sets loading and clears the error and the metrics, keeping the url |
| `RequestCycle.FailureMessage` | src/app/page.tsx:52 | a failed reply's message is its `error` when that is non-empty; an absent or empty `error` gives `Failed to analyze market`; the message is never empty |
| `RequestCycle.CaughtMessage` | src/app/page.tsx:55 | an `Error` shows its message; any other thrown value shows `An error occurred` |
| `RequestCycle.CompleteRequest` | src/app/page.tsx:45-58 | loading ends on every path; an ok reply sets the metrics; a failed reply or a throw sets the error and leaves the metrics as they were |
| `RequestCycle.Step` | src/app/page.tsx:79-85 | edits and clicks do nothing while loading; a click with an empty url does nothing; an enabled click starts a request; a reply completes the one in flight |
| `RequestCycle.StepConsistent` | src/app/page.tsx:41-59 | every event keeps the state consistent: nothing but the spinner while loading, never an error beside metrics |
| `RequestCycle.RunConsistent` | src/app/page.tsx:41-59 | every run of events keeps the state consistent |
| `RequestCycle.RunAppend` | src/app/page.tsx:41-59 | running two event sequences in turn is running their concatenation |
| `RequestCycle.NoInterleavedRequest` | src/app/page.tsx:80-85 | while a request is in flight, no edit and no click changes the state: one request at a time |
| `RequestCycle.RoundTrip` | src/app/page.tsx:41-59 | a click followed by its reply completes the started request |
| `RequestCycle.SuccessClearsError` | src/app/page.tsx:41-59 | a successful round trip shows the reply's metrics and no error, and ends loading |
| `RequestCycle.FailureClearsMetrics` | src/app/page.tsx:41-59 | a failed reply shows its failure message, which is never empty, and no metrics |
| `RequestCycle.ThrowClearsMetrics` | src/app/page.tsx:54-55 | a throw shows the caught message and no metrics; a non-`Error` shows `An error occurred` |
| `RequestCycle.RecoveryAfterFailure` | src/app/page.tsx:41-59 | after any failure a successful retry clears the error and shows the metrics |
| `EndToEnd.RequestField` | src/app/page.tsx:49 | the posted body's url field is the page's url, as a string |
| `EndToEnd.ToReply` | src/app/page.tsx:51-53 | `res.ok` is a 2xx status; an error body yields its error and no metrics; a mock body yields its metrics and no error |
| `EndToEnd.ServerOutcome` | src/app/page.tsx:46-51 | the page's request, answered by the endpoint, is delivered as the endpoint's reply |
| `EndToEnd.PageRequestsAccepted` | src/app/page.tsx:85 | the button fires only with a non-empty url, so the endpoint always answers the page with 200 and the mock metrics |
| `EndToEnd.AnalyzeShowsMock` | src/app/page.tsx:41-59 | pressing Analyze and receiving the answer shows the mock metrics and no error |
| `EndToEnd.RejectionShownAsError` | src/app/page.tsx:52 | a rejection is shown as `Invalid URL`, with no metrics |
| `EndToEnd.MockMagnitudes` | src/app/api/analyze/route.ts:17-18 | the mock liquidity and volume read as 12345 and 67890 |
| `EndToEnd.MockStrengthBars` | src/app/page.tsx:31-39 | the mock record draws a full volume bar and a liquidity bar of 12345 / 67890 * 100 |
| `EndToEnd.MockProbabilityBar` | src/app/page.tsx:152 | the mock probability draws a 42 bar |
| `EndToEnd.MockHistogram` | src/app/page.tsx:101-104 | the mock series draws bars of 40, 41, 42 and 43 |

## Left out

- `MetricValues.ParseMetricValue`: text is read as an exact real. A digit string too long for a double reads as Infinity in JavaScript and then as 0. Here it reads as its exact value, because IEEE-754 rounding and overflow are not modelled.
- `Decimal.ParseFloat`: defined only over the characters `0-9 . -`. These are the only characters the page ever passes it. Exponents, `+`, `Infinity` and leading white space cannot reach it.
- `Bars.ProbabilityWidth`: the implied probability is a real. A NaN probability would make the CSS width NaN; that case is not modelled.
- `Bars.BarHeights`: historical prices are reals, so NaN prices are not modelled.
- Widths and heights are modelled as numbers. The `%` strings they are written into are not.
- The `toFixed(2)` probability label and the `String(...)` labels are display text only and are not modelled. So are the JSX markup, styles, static tiles, documentation list and disclaimer.
- `fetch`, `res.json()`, React state and `async` are not modelled. The outcome of the awaited part is an input (`FetchOutcome`), and state updates are explicit transitions.
- Nothing runs concurrently: the loading flag serialises requests.
- `RequestCycle.Step`: a reply that arrives when no request is in flight cannot happen in the page. The model treats it as doing nothing.
- `RequestCycle.FailureMessage`: `data.error` is modelled as absent or a string. A non-string error value, which `new Error` would convert with `String`, is not modelled.
- A request body that is `null` or is not valid JSON makes `src/app/api/analyze/route.ts:5` throw before the guard. That is the framework's JSON handling and is not modelled. Any other body that is not an object (an array, string, number or boolean) has no `url` field. It is the absent-url case, `AnalyzeRoute.Post(None)`, which the model covers.
- `AnalyzeRoute.Post`: takes only the `url` field of the body. Nested JSON arrays and objects are kept only as truthy non-strings, which is all the guard looks at.
- Real market-data retrieval does not exist. The endpoint is a placeholder that always returns the mock record.
