/** The prompt sent to the image model: `getStylePrompt` and the template
    of `generateLogo` in services/geminiService.ts. The template is cut into
    segments at every place a value is inserted, so that where each piece
    lands in the prompt can be stated and proved once for all segments. */
module Prompt {
  import opened Wrappers
  import opened Types
  import opened JsText
  import opened Segments

  /** The clause of the `default:` branch of `getStylePrompt`. */
  const FallbackClause := "Minimalist and clean."

  /** The clause `getStylePrompt` gives each enum member. (Long literals
      in this module are written as concatenations of shorter ones, which
      keeps the verifier's work on them small; the text is unchanged.) */
  function StyleClause(style: LogoStyle): (r: string)
    ensures |r| > |FallbackClause|
  {
    match style
    case Geometric =>
      "Built with basic geometric shapes " + "(circles, squares, triangles), " + "mathematically balanced."
    case Typographic =>
      "Focus on unique custom lettering " + "or a stylized wordmark, " + "elegant font-driven design."
    case Abstract =>
      "Non-representational marks " + "that convey the brand's essence " + "through form and color."
    case Monoline =>
      "Consistent line weight " + "throughout the design, " + "clean and modern line art."
    case MinimalistPictorial =>
      "A highly simplified, iconic " + "representation of a physical object " + "related to the industry."
  }

  /** `getStylePrompt`: the `switch` compares the run-time string with each
      enum value in turn; a string matching none of them gets the fallback
      clause, and only such a string does. */
  function StylePrompt(style: string): (r: string)
    ensures r == FallbackClause <==> ParseStyle(style).None?
    ensures forall s: LogoStyle :: style == s.Value() ==> r == StyleClause(s)
  {
    match ParseStyle(style)
    case Some(s) => StyleClause(s)
    case None => FallbackClause
  }

  /** The phrase used when `customDetails` is missing or empty. */
  const FallbackDetails := "Professional and modern aesthetic."

  /** The hard constraints every prompt carries. */
  const WhiteBackgroundLine :=
    "- MANDATORY: Solid, pure white " + "background (#FFFFFF). " + "Absolutely no textures or shadows " + "on the background."
  const NoMockupsLine :=
    "- Do NOT include mockups, " + "photorealistic backgrounds, " + "or complex textures. "
  const SeparationLine :=
    "- The logo mark should be clearly " + "separated from the background."

  /** Line break plus the six-space indentation of the template's lines. */
  const Indent := "\n      "

  function Quoted(s: string): string {
    "\"" + s + "\""
  }

  /** The conditional slogan piece: present only for a truthy slogan. */
  function SloganText(slogan: Option<string>): (r: string)
    ensures Truthy(slogan) ==> r == "Slogan: " + Quoted(slogan.value) + "."
    ensures !Truthy(slogan) ==> r == ""
  {
    if Truthy(slogan) then "Slogan: \"" + slogan.value + "\"." else ""
  }

  /** `customDetails || 'Professional and modern aesthetic.'`. */
  function DetailText(details: Option<string>): (r: string)
    ensures Truthy(details) ==> r == details.value
    ensures !Truthy(details) ==> r == FallbackDetails
  {
    if details.Some? && details.value != "" then details.value else FallbackDetails
  }

  /** The fixed wording of the template, between the inserted values. */
  datatype Wording = Wording(
    opening: string,
    industryLabel: string,
    lineEnd: string,
    styleLabel: string,
    paletteLabel: string,
    requirementsHead: string,
    whiteBackground: string,
    commonRules: string,
    bullet: string,
    lineBreak: string,
    noMockups: string,
    separation: string)

  /** The end of the industry line, and the start of the style line. */
  const LineEnd := "." + Indent
  const StyleLabel := Indent + "Style: "

  /** The wording of services/geminiService.ts lines 26-38. */
  const SourceWording := Wording(
    "Create " + "a high-end, professional " + "MINIMALIST vector logo " + "for a brand named ",
    "." + Indent + "Industry: ",
    LineEnd,
    StyleLabel,
    "." + Indent + "Color Palette: ",
    "." + Indent + "Visual Requirements:" + Indent,
    WhiteBackgroundLine,
    Indent + "- Clean sharp lines, " + "flat design, modern aesthetic."
      + Indent + "- Iconic and memorable " + "simplicity."
      + Indent + "- High contrast." + Indent,
    "- ",
    Indent,
    NoMockupsLine,
    SeparationLine)

  /** Segment `i` of the template between its first line break and its
      final indentation, cut where each value is inserted. */
  function Piece(w: Wording, req: LogoRequest, i: nat): string {
    if i == 0 then w.opening
    else if i == 1 then Quoted(req.brandName)
    else if i == 2 then w.industryLabel
    else if i == 3 then req.industry
    else if i == 4 then w.lineEnd
    else if i == 5 then SloganText(req.slogan)
    else if i == 6 then w.styleLabel
    else if i == 7 then StylePrompt(req.style)
    else if i == 8 then w.paletteLabel
    else if i == 9 then req.palette
    else if i == 10 then w.requirementsHead
    else if i == 11 then w.whiteBackground
    else if i == 12 then w.commonRules
    else if i == 13 then w.bullet
    else if i == 14 then DetailText(req.customDetails)
    else if i == 15 then w.lineBreak
    else if i == 16 then w.noMockups
    else if i == 17 then w.lineBreak
    else w.separation
  }

  /** The number of segments. */
  const PieceCount := 19

  function Layout(w: Wording, req: LogoRequest): (segs: seq<string>)
    ensures |segs| == PieceCount
    ensures forall i :: 0 <= i < PieceCount ==> segs[i] == Piece(w, req, i)
  {
    seq(PieceCount, i requires 0 <= i < PieceCount => Piece(w, req, i))
  }

  /** The template literal as written: it opens with a line break and
      indentation and closes with a line break and the closing indentation. */
  function Template(req: LogoRequest): (r: string)
    ensures |r| > 0 && IsSpace(r[0]) && IsSpace(r[|r| - 1])
    ensures Trim(r) == Concat(Layout(SourceWording, req))
  {
    WordingEnds();
    TrimTemplate(Layout(SourceWording, req));
    Indent + Concat(Layout(SourceWording, req)) + "\n    "
  }

  /** The prompt `generateLogo` sends: the template, trimmed. Trimming strips
      exactly the template's outer indentation, so the prompt is the segments
      back to back, and it neither starts nor ends with whitespace. */
  function BuildPrompt(req: LogoRequest): (r: string)
    ensures r == Concat(Layout(SourceWording, req))
    ensures r != [] && !IsSpace(r[0]) && !IsSpace(r[|r| - 1])
  {
    WordingEnds();
    ConcatEnds(Layout(SourceWording, req));
    Trim(Template(req))
  }

  /** The source wording starts with "Create" and ends with a full stop. */
  lemma WordingEnds()
    ensures SourceWording.opening != [] && SourceWording.opening[0] == 'C'
    ensures SourceWording.separation != [] && SourceWording.separation[|SourceWording.separation| - 1] == '.'
  {
  }

  /** Trimming the template removes its outer indentation and nothing else,
      whenever the text inside starts and ends with a non-whitespace
      character. */
  lemma TrimTemplate(segs: seq<string>)
    requires |segs| > 0 && segs[0] != [] && segs[|segs| - 1] != []
    requires !IsSpace(segs[0][0]) && !IsSpace(segs[|segs| - 1][|segs[|segs| - 1]| - 1])
    ensures Trim(Indent + Concat(segs) + "\n    ") == Concat(segs)
  {
    ConcatEnds(segs);
    assert AllSpace(Indent) && AllSpace("\n    ");
    TrimPadded(Indent, Concat(segs), "\n    ");
  }

  // ----- Where the values land, for any wording -----

  lemma InOrderWith(w: Wording, req: LogoRequest) returns (at: seq<nat>)
    ensures InOrder(Concat(Layout(w, req)),
      [Quoted(req.brandName), req.industry, StylePrompt(req.style), req.palette], at)
  {
    var segs := Layout(w, req);
    assert [segs[1], segs[3], segs[7], segs[9]] ==
      [Quoted(req.brandName), req.industry, StylePrompt(req.style), req.palette];
    at := Order4(segs, 1, 3, 7, 9);
  }

  lemma SloganLineWith(w: Wording, req: LogoRequest) returns (at: nat)
    ensures ContainsAt(Concat(Layout(w, req)),
      req.industry + w.lineEnd + SloganText(req.slogan) + w.styleLabel + StylePrompt(req.style), at)
  {
    at := Run5(Layout(w, req), 3);
  }

  lemma DetailBulletWith(w: Wording, req: LogoRequest) returns (at: nat)
    ensures ContainsAt(Concat(Layout(w, req)),
      w.bullet + DetailText(req.customDetails) + w.lineBreak + w.noMockups, at)
  {
    at := Run4(Layout(w, req), 13);
  }

  lemma ConstraintsWith(w: Wording, req: LogoRequest) returns (white: nat, mockups: nat, separation: nat)
    ensures ContainsAt(Concat(Layout(w, req)), w.whiteBackground, white)
    ensures ContainsAt(Concat(Layout(w, req)), w.noMockups, mockups)
    ensures ContainsAt(Concat(Layout(w, req)), w.separation, separation)
    ensures white + |w.whiteBackground| <= mockups && mockups + |w.noMockups| <= separation
  {
    white, mockups, separation := Order3(Layout(w, req), 11, 16, 18);
  }

  // ----- The same facts about the prompt itself -----

  /** The prompt names the brand in double quotes, then the industry, then
      the style clause, then the palette, in that order. */
  lemma PromptInOrder(req: LogoRequest) returns (at: seq<nat>)
    ensures InOrder(BuildPrompt(req),
      [Quoted(req.brandName), req.industry, StylePrompt(req.style), req.palette], at)
  {
    at := InOrderWith(SourceWording, req);
  }

  /** A truthy slogan gets its own line between the industry line and the
      style line; otherwise that line is left empty. */
  lemma PromptSloganLine(req: LogoRequest) returns (at: nat)
    ensures var line := if Truthy(req.slogan) then "Slogan: " + Quoted(req.slogan.value) + "." else "";
      ContainsAt(BuildPrompt(req), req.industry + LineEnd + line + StyleLabel + StylePrompt(req.style), at)
  {
    at := SloganLineWith(SourceWording, req);
  }

  /** A missing slogan and an empty one give the same prompt. */
  lemma FalsySloganIgnored(req: LogoRequest)
    requires !Truthy(req.slogan)
    ensures BuildPrompt(req) == BuildPrompt(req.(slogan := None))
  {
    var a, b := Layout(SourceWording, req), Layout(SourceWording, req.(slogan := None));
    assert forall i :: 0 <= i < PieceCount ==> a[i] == b[i];
    assert a == b;
  }

  /** The detail bullet is `customDetails` when it is non-empty and the fixed
      fallback phrase otherwise, and the no-mockups line follows it
      directly. */
  lemma PromptDetailBullet(req: LogoRequest) returns (at: nat)
    ensures var detail := if Truthy(req.customDetails) then req.customDetails.value else FallbackDetails;
      ContainsAt(BuildPrompt(req), "- " + detail + Indent + NoMockupsLine, at)
  {
    at := DetailBulletWith(SourceWording, req);
  }

  /** Whatever the request, the prompt carries the white-background mandate,
      the no-mockups line and the clear-separation line, in that order. */
  lemma PromptConstraints(req: LogoRequest) returns (white: nat, mockups: nat, separation: nat)
    ensures ContainsAt(BuildPrompt(req), WhiteBackgroundLine, white)
    ensures ContainsAt(BuildPrompt(req), NoMockupsLine, mockups)
    ensures ContainsAt(BuildPrompt(req), SeparationLine, separation)
    ensures white + |WhiteBackgroundLine| <= mockups && mockups + |NoMockupsLine| <= separation
  {
    white, mockups, separation := ConstraintsWith(SourceWording, req);
  }
}
