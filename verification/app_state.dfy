/** The view state of App.tsx that the core touches, `(request, isGenerating,
    error, history)`, and the transitions of `handleGenerate` (lines 26-57)
    and of the "Clear Archive" button (line 322). Ids and timestamps come
    from `Math.random` and `Date.now` in the source; here they are inputs. */
module AppState {
  import opened Wrappers
  import opened Types
  import opened JsText
  import opened Prompt
  import opened Gemini

  const BrandRequiredMessage := "Please enter a brand name."
  const GenerateFailedMessage := "Failed to generate logo. Please try again."

  datatype State = State(
    request: LogoRequest,
    isGenerating: bool,
    error: Option<string>,
    history: seq<GeneratedLogo>)

  /** The state the page starts in (App.tsx lines 7-18). */
  function Initial(): (s: State)
    ensures s.history == [] && s.error.None? && !s.isGenerating
    ensures ParseStyle(s.request.style) == Some(Geometric)
    ensures s.request.brandName == "" && s.request.industry == "" && s.request.palette == Monochrome.Value()
    ensures s.request.slogan.None? && !Truthy(s.request.customDetails)
    ensures Submit(s).Rejected?
  {
    State(
      LogoRequest("", None, "", Geometric.Value(), Monochrome.Value(), Some("")),
      false, None, [])
  }

  /** What pressing "generate" does before any call is made. */
  datatype Submission = Rejected(state: State) | Started(state: State)

  /** Lines 28-34: a brand name that trims to nothing sets the error and
      stops; otherwise the page enters the generating state with no error.
      History is untouched either way. */
  function Submit(s: State): (r: Submission)
    ensures r.Rejected? <==> AllSpace(s.request.brandName)
    ensures r.state.history == s.history && r.state.request == s.request
    ensures r.Rejected? ==> r.state.error == Some(BrandRequiredMessage) && r.state.isGenerating == s.isGenerating
    ensures r.Started? ==> r.state.error.None? && r.state.isGenerating
  {
    if Trim(s.request.brandName) == "" then Rejected(s.(error := Some(BrandRequiredMessage)))
    else Started(s.(isGenerating := true, error := None))
  }

  /** The history entry of a successful generation (lines 40-46). */
  function NewLogo(req: LogoRequest, imageUrl: string, id: string, timestamp: int): (r: GeneratedLogo)
    ensures r.id == id && r.imageUrl == imageUrl && r.timestamp == timestamp && r.request == req
    ensures r.prompt == "Logo for " + req.brandName
  {
    GeneratedLogo(id, imageUrl, "Logo for " + req.brandName, timestamp, req)
  }

  /** `err.message || "Failed to generate logo. Please try again."`. */
  function ErrorText(e: Thrown): (r: string)
    ensures Truthy(e.message) ==> r == e.message.value
    ensures !Truthy(e.message) ==> r == GenerateFailedMessage
  {
    if e.message.Some? && e.message.value != "" then e.message.value else GenerateFailedMessage
  }

  /** Lines 36-56 once the call has answered: on success the new logo is put
      in front of the history; on failure the error is shown and the
      history stays as it was. Either way the page leaves the generating
      state. `submitted` is the request captured when the form was sent. */
  function Settle(s: State, submitted: LogoRequest, outcome: Result<string, Thrown>, id: string, timestamp: int): (r: State)
    ensures !r.isGenerating && r.request == s.request
    ensures outcome.Success? ==>
      && |r.history| == |s.history| + 1
      && r.history[0] == NewLogo(submitted, outcome.value, id, timestamp)
      && r.history[1..] == s.history
      && r.error == s.error
    ensures outcome.Failure? ==> r.history == s.history && r.error == Some(ErrorText(outcome.error))
  {
    match outcome
    case Success(url) =>
      s.(history := [NewLogo(submitted, url, id, timestamp)] + s.history, isGenerating := false)
    case Failure(e) =>
      s.(error := Some(ErrorText(e)), isGenerating := false)
  }

  /** One press of "generate", from the state before to the state after,
      with the prompts sent to the model (none or one). */
  datatype Run = Run(state: State, prompts: seq<string>)

  /** `handleGenerate` end to end. A blank brand name sends nothing and
      changes only the error. Otherwise exactly one prompt is sent, and the
      result is a success that grows the history by the new logo, or a
      failure that leaves the history alone and shows the thrown message
      (or the fixed fallback when it has none). */
  function HandleGenerate(s: State, model: string -> Result<Response, Thrown>, id: string, timestamp: int): (r: Run)
    ensures AllSpace(s.request.brandName) ==>
      && r.prompts == []
      && r.state == s.(error := Some(BrandRequiredMessage))
    ensures !AllSpace(s.request.brandName) ==>
      && r.prompts == [BuildPrompt(s.request)]
      && r.state.request == s.request
      && !r.state.isGenerating
      && var outcome := GenerateLogo(s.request, model);
         && (outcome.Success? ==>
               r.state.history == [NewLogo(s.request, outcome.value, id, timestamp)] + s.history
               && r.state.error.None?)
         && (outcome.Failure? ==>
               r.state.history == s.history && r.state.error == Some(ErrorText(outcome.error)))
  {
    match Submit(s)
    case Rejected(next) => Run(next, [])
    case Started(next) =>
      Run(Settle(next, s.request, GenerateLogo(s.request, model), id, timestamp), [BuildPrompt(s.request)])
  }

  /** The "Clear Archive" button: history becomes empty, nothing else
      changes. */
  function ClearHistory(s: State): (r: State)
    ensures r.history == []
    ensures r.request == s.request && r.error == s.error && r.isGenerating == s.isGenerating
  {
    s.(history := [])
  }

  /** A successful generation, as the inputs `Settle` needs. */
  datatype Generation = Generation(request: LogoRequest, imageUrl: string, id: string, timestamp: int)

  /** The state after a series of successful generations, oldest first. */
  function SettleAll(s: State, done: seq<Generation>): State
    decreases |done|
  {
    if done == [] then s
    else
      var last := done[|done| - 1];
      Settle(SettleAll(s, done[..|done| - 1]), last.request, Success(last.imageUrl), last.id, last.timestamp)
  }

  /** After N successful generations the history has grown by N, the newest
      logo first, and the older history follows unchanged. */
  lemma {:induction false} HistoryIsNewestFirst(s: State, done: seq<Generation>)
    ensures var h := SettleAll(s, done).history;
      && |h| == |s.history| + |done|
      && h[|done|..] == s.history
      && forall i :: 0 <= i < |done| ==>
           var g := done[|done| - 1 - i];
           h[i] == NewLogo(g.request, g.imageUrl, g.id, g.timestamp)
    decreases |done|
  {
    if done != [] {
      var n := |done|;
      var init := done[..n - 1];
      HistoryIsNewestFirst(s, init);
      var before := SettleAll(s, init).history;
      var h := SettleAll(s, done).history;
      assert h[1..] == before;
      forall i | 0 <= i < n
        ensures h[i] == NewLogo(done[n - 1 - i].request, done[n - 1 - i].imageUrl, done[n - 1 - i].id, done[n - 1 - i].timestamp)
      {
        if i > 0 {
          assert h[i] == before[i - 1];
          assert init[n - 2 - (i - 1)] == done[n - 1 - i];
        }
      }
      assert h[n..] == before[n - 1..];
    }
  }

  /** No two history entries share an id. */
  ghost predicate UniqueIds(h: seq<GeneratedLogo>) {
    forall i, j :: 0 <= i < j < |h| ==> h[i].id != h[j].id
  }

  /** Settling keeps ids unique when the new id is fresh. The source draws
      ids from `Math.random`, which does not promise freshness; this states
      what freshness buys. */
  lemma FreshIdKeepsIdsUnique(s: State, submitted: LogoRequest, outcome: Result<string, Thrown>, id: string, timestamp: int)
    requires UniqueIds(s.history)
    requires forall i :: 0 <= i < |s.history| ==> s.history[i].id != id
    ensures UniqueIds(Settle(s, submitted, outcome, id, timestamp).history)
  {
    var h := Settle(s, submitted, outcome, id, timestamp).history;
    if outcome.Success? {
      forall i, j | 0 <= i < j < |h| ensures h[i].id != h[j].id {
        assert h[j] == s.history[j - 1];
        if i > 0 {
          assert h[i] == s.history[i - 1];
        }
      }
    }
  }
}
