/** `generateLogo` of services/geminiService.ts around the remote call: the
    call itself is a parameter (`model`, from prompt to response or thrown
    error); the client extracts the first inline image of the response or
    throws, and passes every failure on unchanged. */
module Gemini {
  import opened Wrappers
  import opened Types
  import opened Prompt

  /** The parts of a model response the client looks at. Every level is
      optional, as it is in the SDK's types; a part without `inlineData`
      is, for instance, a text part. */
  datatype InlineData = InlineData(data: Option<string>)
  datatype Part = Part(inlineData: Option<InlineData>)
  datatype Content = Content(parts: Option<seq<Part>>)
  datatype Candidate = Candidate(content: Option<Content>)
  datatype Response = Response(candidates: Option<seq<Candidate>>)

  /** A thrown JavaScript `Error`; its `message` may be missing. */
  datatype Thrown = Thrown(message: Option<string>)

  const NoImageMessage := "No image data found in response"
  const DataUrlPrefix := "data:image/png;base64,"

  /** `response.candidates?.[0]?.content?.parts || []`. */
  function ResponseParts(resp: Response): (parts: seq<Part>)
    ensures (resp.candidates.Some? && |resp.candidates.value| > 0
             && resp.candidates.value[0].content.Some?
             && resp.candidates.value[0].content.value.parts.Some?) ==>
      parts == resp.candidates.value[0].content.value.parts.value
    ensures parts != [] ==>
      && resp.candidates.Some? && |resp.candidates.value| > 0
      && resp.candidates.value[0].content.Some?
      && resp.candidates.value[0].content.value.parts == Some(parts)
  {
    match resp.candidates
    case None => []
    case Some(cands) =>
      if |cands| == 0 then []
      else match cands[0].content
        case None => []
        case Some(content) => content.parts.GetOr([])
  }

  /** The text a template literal makes of `part.inlineData.data`: a
      missing value interpolates as "undefined". */
  function Interpolated(data: Option<string>): (r: string)
    ensures data.Some? ==> r == data.value
    ensures data.None? ==> r == "undefined"
  {
    data.GetOr("undefined")
  }

  predicate HasInline(p: Part) {
    p.inlineData.Some?
  }

  /** Part `i` is the first part carrying inline data. */
  ghost predicate IsFirstInline(parts: seq<Part>, i: int) {
    0 <= i < |parts| && HasInline(parts[i]) && forall j :: 0 <= j < i ==> !HasInline(parts[j])
  }

  /** The `for … of` loop of lines 55-59: the payload of the first part with
      inline data, or nothing if no part has any. */
  function FirstInline(parts: seq<Part>): (r: Option<string>)
    ensures r.None? <==> forall i :: 0 <= i < |parts| ==> !HasInline(parts[i])
    ensures forall i :: IsFirstInline(parts, i) ==> r == Some(Interpolated(parts[i].inlineData.value.data))
  {
    if |parts| == 0 then None
    else if HasInline(parts[0]) then Some(Interpolated(parts[0].inlineData.value.data))
    else
      var r := FirstInline(parts[1..]);
      assert forall i :: IsFirstInline(parts, i) ==> IsFirstInline(parts[1..], i - 1);
      r
  }

  /** The scan's result: a PNG data URL built from the first inline payload,
      or the "no image" error. It fails exactly when no part carries inline
      data. */
  function ScanResponse(resp: Response): (r: Result<string, Thrown>)
    ensures r.Failure? <==> forall i :: 0 <= i < |ResponseParts(resp)| ==> !HasInline(ResponseParts(resp)[i])
    ensures r.Failure? ==> r.error == Thrown(Some(NoImageMessage))
    ensures forall i :: IsFirstInline(ResponseParts(resp), i) ==>
      r == Success(DataUrlPrefix + Interpolated(ResponseParts(resp)[i].inlineData.value.data))
  {
    match FirstInline(ResponseParts(resp))
    case Some(payload) => Success(DataUrlPrefix + payload)
    case None => Failure(Thrown(Some(NoImageMessage)))
  }

  /** Parts after the first inline image do not matter. */
  lemma LaterPartsIgnored(parts: seq<Part>, i: nat, rest: seq<Part>)
    requires IsFirstInline(parts, i)
    ensures FirstInline(parts[..i + 1] + rest) == FirstInline(parts)
  {
    var q := parts[..i + 1] + rest;
    assert IsFirstInline(q, i) by {
      assert q[i] == parts[i];
      forall j | 0 <= j < i ensures !HasInline(q[j]) {
        assert q[j] == parts[j];
      }
    }
  }

  /** A response without candidates, with an empty candidate list, or whose
      first candidate has no content or no parts fails with the "no image"
      error. */
  lemma MissingPartsFail(resp: Response)
    requires || resp.candidates.None? || resp.candidates == Some([])
             || (resp.candidates.Some? && |resp.candidates.value| > 0
                 && (resp.candidates.value[0].content.None?
                     || resp.candidates.value[0].content.value.parts.None?))
    ensures ScanResponse(resp) == Failure(Thrown(Some(NoImageMessage)))
  {
  }

  /** `generateLogo`: builds the prompt, asks the model once, and scans the
      answer. A thrown error, the model's or the scan's own, reaches the
      caller unchanged: there is no retry and no reclassification. */
  function GenerateLogo(req: LogoRequest, model: string -> Result<Response, Thrown>): (r: Result<string, Thrown>)
    ensures model(BuildPrompt(req)).Failure? ==> r == Failure(model(BuildPrompt(req)).error)
    ensures model(BuildPrompt(req)).Success? ==> r == ScanResponse(model(BuildPrompt(req)).value)
  {
    match model(BuildPrompt(req))
    case Failure(e) => Failure(e)
    case Success(resp) => ScanResponse(resp)
  }
}
