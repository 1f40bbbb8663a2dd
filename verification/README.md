# Logo generator core, modelled in Dafny

The application takes a logo request (a brand name, an optional slogan, an
industry, a style, a colour palette and optional details). From it the
application:

- builds a text prompt for a generative image model;
- pulls the first inline image out of the model's answer;
- keeps the results in an in-memory history, newest first;
- exports any logo as a PNG: either as generated (white background) or with
  the near-white pixels made transparent.

The project models that core:

| module | models |
|---|---|
| `Wrappers` | `Option` and `Result` |
| `Types` | the enumerations and records of `types.ts` |
| `JsText` | the JavaScript string built-ins the core relies on: `String.prototype.trim`, the `\s` character class, `toLowerCase`, and the truthiness of an optional string |
| `Background` | the pixel loop of `removeBackground` in `App.tsx` |
| `FileName` | the download file name of `downloadLogo` |
| `Segments` | general facts about text made of consecutive segments |
| `Prompt` | `getStylePrompt` and the prompt template of `generateLogo` in `services/geminiService.ts` |
| `Gemini` | the scan of the model response and the error propagation of `generateLogo` |
| `AppState` | the page state, `handleGenerate` and "Clear Archive" |
| `Export` | `downloadLogo` |

JavaScript semantics are followed where they matter:

- A missing `inlineData.data` interpolates as `"undefined"`.
- A slogan or custom details that is missing or `""` counts as absent.
- `trim` and `\s` use the full ECMAScript whitespace and line-terminator
  set.
- The pixel loop reads past the end of a buffer whose length is not a
  multiple of four as `undefined`, so the comparison fails. Writes past
  the end are ignored.

The remote model call is a function parameter. So are the browser image
decoder and `toDataURL`. The id (`Math.random`) and the timestamp
(`Date.now`) are inputs.

## Model

| member | source | states |
|---|---|---|
| Types.ParseStyle | types.ts:2-8 | A string maps to the enum member whose value it is. It maps to nothing exactly when it is none of the five values. |
| JsText.TrimStart | App.tsx:28 | The result is a suffix of the input. Everything dropped is whitespace. The result does not start with whitespace. |
| JsText.TrimEnd | App.tsx:28 | The result is a prefix of the input. Everything dropped is whitespace. The result does not end with whitespace. |
| JsText.Trim | App.tsx:28 | `trim()` is empty exactly when the input is all whitespace. Otherwise it starts and ends with a non-whitespace character. |
| JsText.TrimStartSkips | services/geminiService.ts:25-39 | Leading whitespace of any length does not change what `TrimStart` returns. |
| JsText.TrimEndSkips | services/geminiService.ts:25-39 | Trailing whitespace of any length does not change what `TrimEnd` returns. |
| JsText.TrimPadded | services/geminiService.ts:25-39 | Trimming whitespace padding off text with non-whitespace ends gives back exactly that text. |
| JsText.LowerChar | App.tsx:104 | A lowercased character is never upper case. Non-upper-case characters are unchanged. Upper-case ones move by the fixed A-to-a distance. |
| JsText.Lower | App.tsx:104 | Lowercasing keeps the length and maps each character on its own. |
| JsText.LowerKeepsSpaces | App.tsx:104 | Lowercasing neither creates nor removes whitespace. |
| JsText.LowerAppend | App.tsx:104 | Lowercasing distributes over concatenation. |
| Background.RemoveNearWhite | App.tsx:75-84 | The length is kept. Colour bytes never change. A full pixel's alpha becomes 0 exactly when red, green and blue all exceed the threshold. Otherwise the alpha keeps its value. |
| Background.RemoveNearWhiteLoop | App.tsx:75-84 | The in-place loop, stepping four bytes at a time, computes exactly `RemoveNearWhite`. |
| Background.RemoveBackground | App.tsx:64-87 | The canvas keeps the image's width and height, stays well-formed, and carries the transformed pixels. |
| Background.ThresholdIsStrict | App.tsx:81 | A pixel with any colour channel exactly at the threshold keeps its alpha. |
| Background.OnlyAlphaCleared | App.tsx:80-83 | Every byte either stays as it was or is an alpha byte set to 0. |
| Background.IdempotentAt | App.tsx:75-84 | Each byte is the same after one run of the loop and after two. |
| Background.Idempotent | App.tsx:75-84 | Running the loop a second time changes nothing. |
| Background.RemoveBackgroundIdempotent | App.tsx:64-87 | Removing the background of an image already processed changes nothing, dimensions included. |
| Background.WhiteImageBecomesTransparent | App.tsx:75-84 | With the source threshold 248, a pure-white image comes out fully transparent. |
| Background.TwoPixelExample | App.tsx:81-82 | With threshold 248, a white pixel loses its alpha and a near-black pixel keeps it. |
| FileName.Hyphenate | App.tsx:104 | The result of `replace(/\s+/g, '-')` is no longer than the input, and is empty only for empty input. |
| FileName.HyphenateNoSpace | App.tsx:104 | No whitespace survives the replacement. |
| FileName.HyphenateWord | App.tsx:104 | Text without whitespace passes through unchanged. |
| FileName.HyphenateRun | App.tsx:104 | A whole run of whitespace, of any length, becomes a single '-'. |
| FileName.HyphenateAppend | App.tsx:104 | Cutting the text anywhere except inside a run of whitespace cuts the result in the same place. With the two lemmas above, this fixes the result on every string. |
| FileName.LowerCommutes | App.tsx:104 | Lowercasing before or after the hyphenation gives the same stem. |
| FileName.Stem | App.tsx:104 | The stem is the brand name lowercased, then hyphenated; `LowerCommutes` makes the order of the two steps irrelevant. It holds no whitespace and no upper-case letter. |
| FileName.DownloadName | App.tsx:104-105 | The file name is the brand name lowercased and hyphenated, followed by `-transparent.png` or `-white.png` according to the variant. It holds no whitespace and no upper-case letter. With `HyphenateWord`, `HyphenateRun` and `HyphenateAppend` this fixes the name for every brand name. |
| FileName.ExampleHyphenate | App.tsx:104 | "Aether  Labs" hyphenates to "Aether-Labs". |
| FileName.ExampleName | App.tsx:104-105 | The transparent export of "Aether  Labs" is named "aether-labs-transparent.png". |
| Prompt.StyleClause | services/geminiService.ts:69-79 | Every enum member's clause is longer than the fallback clause, so no member's clause is the fallback. |
| Prompt.StylePrompt | services/geminiService.ts:68-83 | The fallback "Minimalist and clean." is returned exactly for a string that is not one of the enum values. Each enum value gets its member's clause. |
| Prompt.SloganText | services/geminiService.ts:28 | A truthy slogan yields `Slogan: "<slogan>".`. A missing or empty slogan yields nothing. |
| Prompt.DetailText | services/geminiService.ts:36 | Custom details that are present and non-empty are used as given. Otherwise the fixed fallback phrase is used. |
| Prompt.Template | services/geminiService.ts:25-38 | The untrimmed template literal starts and ends with whitespace, and trimming it leaves exactly the segments back to back. |
| Prompt.BuildPrompt | services/geminiService.ts:25-39 | The prompt is the template's segments back to back, with no outer indentation. It is non-empty and neither starts nor ends with whitespace. |
| Prompt.WordingEnds | services/geminiService.ts:26-38 | The template text opens with "C" and closes with a full stop. |
| Prompt.TrimTemplate | services/geminiService.ts:25-39 | Trimming the template removes exactly its outer indentation. |
| Prompt.PromptInOrder | services/geminiService.ts:26-30 | The quoted brand name, the industry, the style clause and the palette all occur in the prompt, in that order, without overlapping. |
| Prompt.PromptSloganLine | services/geminiService.ts:27-29 | The industry is followed by the slogan line, or an empty line when the slogan is falsy, and then the style line. |
| Prompt.FalsySloganIgnored | services/geminiService.ts:28 | An empty slogan and a missing one give the same prompt. |
| Prompt.PromptDetailBullet | services/geminiService.ts:36-37 | The detail bullet holds the custom details, or the fallback phrase. The no-mockups line follows it directly. |
| Prompt.PromptConstraints | services/geminiService.ts:32-38 | Every prompt carries the white-background mandate, the no-mockups line and the separation line, in that order and without overlap. |
| Gemini.ResponseParts | services/geminiService.ts:55 | When the first candidate has content with parts, exactly those parts are returned. Any parts returned come from there, so every missing level of the `?.` chain gives no parts. |
| Gemini.Interpolated | services/geminiService.ts:57 | A present payload is inserted as it is. A missing one is inserted as the text "undefined". |
| Gemini.FirstInline | services/geminiService.ts:55-59 | Nothing is found exactly when no part carries inline data. Otherwise the result is the payload of the first part that does. |
| Gemini.ScanResponse | services/geminiService.ts:55-61 | The scan fails exactly when no part has inline data, and the failure is "No image data found in response". Success is the PNG data-URL prefix plus the first inline payload. |
| Gemini.LaterPartsIgnored | services/geminiService.ts:55-59 | Parts after the first inline image do not affect the result. |
| Gemini.MissingPartsFail | services/geminiService.ts:55-61 | A response with no candidates, or whose first candidate has no content or no parts, fails with the no-image error. |
| Gemini.GenerateLogo | services/geminiService.ts:20-65 | The model is asked once, with the built prompt. Its thrown error is passed on unchanged. Otherwise the result is the scan of its answer. |
| AppState.Initial | App.tsx:7-18 | The page starts with an empty history, no error and not generating. The form has a blank brand name and industry, the Geometric style, the Monochrome palette, no slogan and empty details. So pressing generate on an untouched page is rejected. |
| AppState.Submit | App.tsx:28-34 | Submission is rejected exactly when the brand name is all whitespace. A rejection sets "Please enter a brand name.". Otherwise the page enters the generating state with the error cleared. The history is untouched either way. |
| AppState.NewLogo | App.tsx:40-46 | The history record carries the given id, image URL, timestamp and request. Its prompt is "Logo for " followed by the brand name. |
| AppState.ErrorText | App.tsx:52 | The error's own message is shown when it is truthy. Otherwise the fixed fallback text is shown. |
| AppState.Settle | App.tsx:36-56 | A success puts the new logo in front of the history and keeps the rest. A failure keeps the history and shows the error text. Both end the generating state. |
| AppState.HandleGenerate | App.tsx:26-57 | A blank brand name sends no prompt and changes only the error. Otherwise exactly one prompt, `BuildPrompt(request)`, is sent and the form request is kept. Success then grows the history by the new logo with no error. Failure keeps the history and shows the error. Nothing else changes. |
| AppState.ClearHistory | App.tsx:322 | The history becomes empty and nothing else changes. |
| AppState.HistoryIsNewestFirst | App.tsx:48 | After n successful generations, the history holds the n new logos newest first, followed by the old history unchanged. |
| AppState.FreshIdKeepsIdsUnique | App.tsx:41-48 | When the new id is fresh, history ids stay pairwise distinct. |
| Export.RemoveBackgroundUrl | App.tsx:59-92 | A decode failure rejects. Otherwise the result is the encoding of the decoded image with its near-white pixels cleared at threshold 248. |
| Export.DownloadLogo | App.tsx:94-113 | The white export hands over the stored URL untouched. The transparent export hands over the background-removed image. A failure in that step ends in the download alert's message. The file name follows the brand name and the variant. |
| Export.OpaqueExportIgnoresCodec | App.tsx:96-100 | The white export does not depend on the image decoder or encoder. |

## Left out

- The React rendering, the form's input handling (`handleInputChange`), the tabs and `LogoCard` are presentation only.
- The browser image pipeline (`Image`, canvas, `getImageData`, `putImageData`, `toDataURL`) is not modelled. Decoding and encoding are parameters of `Export.DownloadLogo`. A missing 2D context is one of the decode failures.
- The DOM link, its click, `console.error` and `alert` are side effects. The alert's text is the failure value of `Export.DownloadLogo`.
- The SDK client, its singleton, the API key and the request options (model name, aspect ratio) belong to the remote call. That call is the `model` parameter of `Gemini.GenerateLogo`.
- `Math.random().toString(36).substr(2, 9)` and `Date.now()` are inputs. The history entry's `prompt` field is built as `Logo for <brand>`.
- vite.config.ts and the build setup are out of scope.
- The model has no concurrency. In the page, the generate button is disabled while generating. Here each run of `AppState.HandleGenerate` is one whole press, from submission to settling.
- JsText.LowerChar: `toLowerCase` is modelled for ASCII letters only. Other letters keep their case, whereas JavaScript applies full Unicode case mapping.
- Prompt.StyleClause: states that each clause is longer than the fallback but not that the five clauses differ from each other. The literal texts are in its body.
- AppState.FreshIdKeepsIdsUnique: requires a fresh id. The source draws ids at random and does not guarantee freshness.
- The code has no error categories. `generateLogo` rethrows every error unchanged (services/geminiService.ts:62-64). The page shows `err.message` or a fixed fallback (App.tsx:52). Any export failure ends in one fixed alert (App.tsx:109-111).
- App.tsx:81 compares against 248, which is `Background.Threshold`. The loop itself takes the threshold as a parameter.
- When the slogan is falsy, the code leaves an empty indented line between the industry and style lines. The model keeps that line, as `Prompt.PromptSloganLine` states.
