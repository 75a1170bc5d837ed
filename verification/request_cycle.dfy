/**
 * The page's state and its analysis request cycle (src/app/page.tsx:14-17,
 * 41-59, 73-86): the url input, the Analyze button and `handleAnalyze`.
 * React's state updates are modelled as a state machine; the network reply
 * arrives as a separate event, because the handler awaits it.
 */
module RequestCycle {
  import opened Wrappers
  import opened Market

  datatype ViewState = ViewState(url: string, loading: bool, error: string, metrics: Option<Metrics>)

  /** The four `useState` initial values. */
  const Initial: ViewState := ViewState("", false, "", None)

  const AnalyzeFailed: string := "Failed to analyze market"
  const UnknownFailure: string := "An error occurred"

  /** `disabled={loading || !url}`, negated: the button can be pressed. */
  predicate AnalyzeEnabled(s: ViewState) {
    !(s.loading || s.url == "")
  }

  /** What `fetch` or `res.json()` may throw: an `Error` carries a message, anything else does not. */
  datatype Thrown = ErrorObject(message: string) | NonErrorValue

  /** A received response: `res.ok`, and the `error` and `metrics` fields of its JSON body. */
  datatype Reply = Reply(ok: bool, error: Option<string>, metrics: Option<Metrics>)

  /** How the awaited part of `handleAnalyze` ends. */
  datatype FetchOutcome = Delivered(reply: Reply) | Threw(thrown: Thrown)

  /** The synchronous start of `handleAnalyze`: spinner on, error and metrics cleared. */
  function StartRequest(s: ViewState): (r: ViewState)
    ensures r.loading && r.error == "" && r.metrics.None?
    ensures r.url == s.url
  {
    s.(loading := true, error := "", metrics := None)
  }

  /** `data.error || "Failed to analyze market"` */
  function FailureMessage(error: Option<string>): (m: string)
    ensures m != ""
    ensures error.Some? && error.value != "" ==> m == error.value
    ensures error.None? || error.value == "" ==> m == AnalyzeFailed
  {
    match error
    case Some(e) => if e != "" then e else AnalyzeFailed
    case None => AnalyzeFailed
  }

  /** `e instanceof Error ? e.message : "An error occurred"` */
  function CaughtMessage(t: Thrown): (m: string)
    ensures t.ErrorObject? ==> m == t.message
    ensures t.NonErrorValue? ==> m == UnknownFailure
  {
    match t
    case ErrorObject(message) => message
    case NonErrorValue => UnknownFailure
  }

  /**
   * The rest of `handleAnalyze`, from a started state: an ok reply shows its
   * metrics; a failed reply throws an `Error` carrying its message, which the
   * catch shows; any throw leaves the metrics cleared. The finally turns the
   * spinner off on every path.
   */
  function CompleteRequest(s: ViewState, outcome: FetchOutcome): (r: ViewState)
    ensures !r.loading && r.url == s.url
    ensures outcome.Delivered? && outcome.reply.ok ==>
              r.error == s.error && r.metrics == outcome.reply.metrics
    ensures outcome.Delivered? && !outcome.reply.ok ==>
              r.error == FailureMessage(outcome.reply.error) && r.metrics == s.metrics
    ensures outcome.Threw? ==> r.error == CaughtMessage(outcome.thrown) && r.metrics == s.metrics
  {
    var caught: Option<Thrown> :=
      match outcome
      case Threw(t) => Some(t)
      case Delivered(reply) =>
        if !reply.ok then Some(ErrorObject(FailureMessage(reply.error))) else None;
    var afterTry :=
      if caught.None? then s.(metrics := outcome.reply.metrics)
      else s.(error := CaughtMessage(caught.value));
    afterTry.(loading := false)
  }

  /** User and network events. */
  datatype Event = EditUrl(text: string) | ClickAnalyze | Settle(outcome: FetchOutcome)

  /**
   * One event. The input and the button are disabled while loading, so edits
   * and clicks then change nothing; a reply only matters while one is awaited.
   */
  function Step(s: ViewState, e: Event): (r: ViewState)
    ensures e.EditUrl? && !s.loading ==> r == s.(url := e.text)
    ensures e.ClickAnalyze? && AnalyzeEnabled(s) ==> r == StartRequest(s)
    ensures e.Settle? && s.loading ==> r == CompleteRequest(s, e.outcome)
    ensures (e.EditUrl? || e.ClickAnalyze?) && s.loading ==> r == s
    ensures e.ClickAnalyze? && s.url == "" ==> r == s
    ensures e.Settle? && !s.loading ==> r == s
  {
    match e
    case EditUrl(text) => if s.loading then s else s.(url := text)
    case ClickAnalyze => if AnalyzeEnabled(s) then StartRequest(s) else s
    case Settle(outcome) => if s.loading then CompleteRequest(s, outcome) else s
  }

  /** The state after a sequence of events. */
  function Run(s: ViewState, events: seq<Event>): (r: ViewState)
    decreases |events|
  {
    if events == [] then s else Run(Step(s, events[0]), events[1..])
  }

  /**
   * What the page can show: while loading nothing but the spinner, and never
   * an error beside metrics.
   */
  predicate Consistent(s: ViewState) {
    (s.loading ==> s.error == "" && s.metrics.None?) &&
    (s.error == "" || s.metrics.None?)
  }

  lemma InitialConsistent()
    ensures Consistent(Initial)
    ensures !AnalyzeEnabled(Initial)
  {
  }

  /** Every event keeps the state consistent. */
  lemma StepConsistent(s: ViewState, e: Event)
    requires Consistent(s)
    ensures Consistent(Step(s, e))
  {
  }

  /** Any run of events keeps the state consistent. */
  lemma {:induction false} RunConsistent(s: ViewState, events: seq<Event>)
    requires Consistent(s)
    ensures Consistent(Run(s, events))
    decreases |events|
  {
    if events != [] {
      StepConsistent(s, events[0]);
      RunConsistent(Step(s, events[0]), events[1..]);
    }
  }

  /** Running two sequences one after the other is running their concatenation. */
  lemma {:induction false} RunAppend(s: ViewState, a: seq<Event>, b: seq<Event>)
    ensures Run(s, a + b) == Run(Run(s, a), b)
    decreases |a|
  {
    if a == [] {
      assert a + b == b;
    } else {
      assert (a + b)[0] == a[0];
      assert (a + b)[1..] == a[1..] + b;
      RunAppend(Step(s, a[0]), a[1..], b);
    }
  }

  /** While a request is in flight, no edit and no click changes anything: one request at a time. */
  lemma {:induction false} NoInterleavedRequest(s: ViewState, events: seq<Event>)
    requires s.loading
    requires forall i :: 0 <= i < |events| ==> !events[i].Settle?
    ensures Run(s, events) == s
    decreases |events|
  {
    if events != [] {
      assert !events[0].Settle?;
      NoInterleavedRequest(s, events[1..]);
    }
  }

  /** A click followed by the reply, as one run. */
  lemma RoundTrip(s: ViewState, outcome: FetchOutcome)
    requires AnalyzeEnabled(s)
    ensures Run(s, [ClickAnalyze, Settle(outcome)]) == CompleteRequest(StartRequest(s), outcome)
  {
    var events := [ClickAnalyze, Settle(outcome)];
    var started := Step(s, ClickAnalyze);
    assert events[1..] == [Settle(outcome)];
    assert Run(s, events) == Run(started, [Settle(outcome)]);
    assert [Settle(outcome)][1..] == [];
    assert Run(started, [Settle(outcome)]) == Run(Step(started, Settle(outcome)), []);
  }

  /** A successful round trip shows the reply's metrics and no error, whatever was shown before. */
  lemma SuccessClearsError(s: ViewState, reply: Reply)
    requires AnalyzeEnabled(s) && reply.ok
    ensures var r := Run(s, [ClickAnalyze, Settle(Delivered(reply))]);
            r.error == "" && r.metrics == reply.metrics && !r.loading && r.url == s.url
  {
    RoundTrip(s, Delivered(reply));
  }

  /** A failed round trip shows a non-empty error and no metrics, whatever was shown before. */
  lemma FailureClearsMetrics(s: ViewState, reply: Reply)
    requires AnalyzeEnabled(s) && !reply.ok
    ensures var r := Run(s, [ClickAnalyze, Settle(Delivered(reply))]);
            r.error == FailureMessage(reply.error) && r.error != "" && r.metrics.None? && !r.loading
  {
    RoundTrip(s, Delivered(reply));
  }

  /** A thrown failure shows the caught message and no metrics, whatever was shown before. */
  lemma ThrowClearsMetrics(s: ViewState, thrown: Thrown)
    requires AnalyzeEnabled(s)
    ensures var r := Run(s, [ClickAnalyze, Settle(Threw(thrown))]);
            r.error == CaughtMessage(thrown) && r.metrics.None? && !r.loading
    ensures thrown.NonErrorValue? ==> Run(s, [ClickAnalyze, Settle(Threw(thrown))]).error == UnknownFailure
  {
    RoundTrip(s, Threw(thrown));
  }

  /** After any failure the button is usable again, and a successful retry clears the error. */
  lemma RecoveryAfterFailure(s: ViewState, failure: FetchOutcome, reply: Reply)
    requires AnalyzeEnabled(s) && reply.ok
    ensures var r := Run(s, [ClickAnalyze, Settle(failure), ClickAnalyze, Settle(Delivered(reply))]);
            r.error == "" && r.metrics == reply.metrics && !r.loading
  {
    var first := [ClickAnalyze, Settle(failure)];
    var second := [ClickAnalyze, Settle(Delivered(reply))];
    assert first + second == [ClickAnalyze, Settle(failure), ClickAnalyze, Settle(Delivered(reply))];
    RunAppend(s, first, second);
    RoundTrip(s, failure);
    var middle := Run(s, first);
    assert AnalyzeEnabled(middle);
    SuccessClearsError(middle, reply);
  }
}
