# ResumeTailorAI core, modelled in Dafny

ResumeTailorAI compares a resume with a job description. It asks a language
model for an analysis and falls back to a local keyword heuristic when the
model is unavailable. This project models the parts of that program that
decide what the user sees:

- **Heuristic analyser** (`analyzer.dfy`, module `Analyzer`). It tokenises
  both texts and removes duplicate tokens. From the distinct tokens it
  derives:
  - the match score, a rounded coverage capped at 100;
  - up to 25 missing keywords;
  - the suggestion list;
  - the skill strengths;
  - the tone and ATS scores.

  The "analyse" button's guard and its choice between the model's result and
  the heuristic are modelled too.
- **Language-model service** (`gemini.dfy`, module `Gemini`; `responses.dfy`,
  module `Responses`). The service is a class with one client slot, which
  `initialize` fills when the key is usable. Both calls fail with "not
  initialized" while the slot is empty. The model's reply is cleaned of
  Markdown code fences before it is parsed, and the `{…}` fallback handles a
  reply that does not parse. Every failure message is mapped to the error the
  service rethrows. The page shows `generateImprovedResume`'s errors to the
  user. It catches every error of `analyzeResume` and falls back to the
  heuristic instead.
- **Results panel** (`results.dfy`, module `Results`). It covers:
  - the three score bands (80 and 60 are the thresholds);
  - the colour classes and the match label;
  - the loading skeleton;
  - the missing-keyword card.
- **Resume preview** (`preview.dfy`, module `Preview`). Each line is
  classified as a heading, a bullet, a paragraph or a spacer. A placeholder is
  shown for an empty resume, and the download button is enabled only when the
  resume is not blank. The line rules take the first bullet marker as a
  parameter:
  - `MisencodedBullet`, as the source spells it, gives the program's own
    behaviour;
  - `BulletGlyph` gives the evidently intended behaviour (see Findings).
- **Shared primitives** (`text.dfy`, `sequences.dfy`, `wrappers.dfy`). These
  are the JavaScript string and array operations the program relies on:
  - `trim` and `\s`, using ECMAScript's WhiteSpace and LineTerminator code
    points;
  - `split` and `join`;
  - `includes`, `startsWith` and `endsWith`;
  - `filter`, `slice(0, n)` and `indexOf`;
  - `Array.from(new Set(…))`.

Three things the program does not control are passed in as inputs:
- the remote call is a `Reply`: either the text the model answered or the
  message of the error it raised;
- `JSON.parse` is a function that returns nothing where it would throw;
- the environment's API key is an `Option<string>`.

## Model

| member | source | states |
|---|---|---|
| Analyzer.Scrub | src/pages/Index.tsx:50 | letters and digits are kept; every other character ends up as white space |
| Analyzer.ScrubKeepsWordChars | src/pages/Index.tsx:50 | after the replace, the non-space characters are exactly the input's letters and digits, in order |
| Analyzer.Words | src/pages/Index.tsx:51-52 | no word is empty; every character of a word is a non-space character of the input |
| Analyzer.Tokenize | src/pages/Index.tsx:47-53 | every token is a non-empty run of `[a-z0-9]` |
| Analyzer.WordsKeepText | src/pages/Index.tsx:51-52 | the words, concatenated, are exactly the input's non-space characters in order |
| Analyzer.WordsJoin | src/pages/Index.tsx:51-52 | words break exactly at white space: words without white space, joined by single spaces, split back into the same words |
| Analyzer.TokenizeJoin | src/pages/Index.tsx:47-53 | tokens joined by spaces are tokenised back into the same tokens, so "react native" gives two |
| Analyzer.TokenizeKeepsText | src/pages/Index.tsx:47-53 | the tokens, concatenated, are exactly the letters and digits of the lower-cased text: nothing lost, nothing invented |
| Sequences.Unique | src/pages/Index.tsx:55 | same elements as the input, no duplicates, never longer |
| Sequences.UniqueOrdered | src/pages/Index.tsx:55 | duplicate removal keeps the order of first occurrence |
| Sequences.Filter | src/pages/Index.tsx:62 | an element is kept iff it is in the input and satisfies the predicate |
| Sequences.FilterOrdered | src/pages/Index.tsx:62-66 | filtering a duplicate-free sequence keeps the source order |
| Sequences.Take | src/pages/Index.tsx:66 | `slice(0, n)`: the first `min(n, length)` elements |
| Analyzer.RoundedPercent | src/pages/Index.tsx:69 | the percentage rounded to the nearest integer, halves up: `2w·p ≤ 200c + w < 2w·(p+1)` |
| Analyzer.RoundedPercentFull | src/pages/Index.tsx:69 | a count at least as large as the whole rounds to at least 100 |
| Analyzer.RoundedPercentAgainstCap | src/pages/Index.tsx:69-70 | a share rounds below 100 iff it is below 99.5 percent |
| Analyzer.MatchScore | src/pages/Index.tsx:69-70 | in 0..100; 0 without important tokens; 100 iff the share is at least 99.5 percent; below that, the share rounded half up |
| Analyzer.MatchScoreRounding | src/pages/Index.tsx:58-70 | for two texts: 0 without long job tokens; 100 once the distinct shared tokens make up at least 99.5 percent of the distinct long job tokens; otherwise that share rounded half up |
| Analyzer.MatchScoreWithoutImportantTokens | src/pages/Index.tsx:65-70 | a job description with no token longer than three characters scores 0, whatever the overlap |
| Analyzer.MatchScoreFullCoverage | src/pages/Index.tsx:62-70 | when every long job token is in the resume, the score is 100 and nothing is missing |
| Analyzer.MissingKeywordsSpec | src/pages/Index.tsx:58-66 | missing keywords are at most 25; each is long, in the job text and not in the resume; they are distinct and in job order; all of them are listed when fewer than 25 |
| Analyzer.MissingKeywordsFirst | src/pages/Index.tsx:66 | `slice(0, 25)` keeps the first lacking keywords: when 25 are listed, every lacking job token left out comes later in the job text than the last one listed |
| Sequences.TakeFirst | src/pages/Index.tsx:66 | an element that `slice(0, n)` of an ordered sequence leaves out comes after the last one kept |
| Analyzer.BuildSuggestions | src/pages/Index.tsx:73-79 | the pushes build the keyword sentence (only when keywords are missing) followed by the three fixed suggestions |
| Analyzer.SuggestionsSpec | src/pages/Index.tsx:73-79 | 3 or 4 suggestions; the fixed three come last; the first lists the first ten missing keywords exactly when some are missing |
| Analyzer.SharedSkills | src/pages/Index.tsx:82-83 | a token is a shared skill iff it is whitelisted and in both texts; no duplicates; in job order |
| Analyzer.StrengthsSpec | src/pages/Index.tsx:81-89 | 1 to 8 strengths; the two default sentences exactly when no skill is shared; otherwise one sentence per shared skill |
| Analyzer.ToneScore | src/pages/Index.tsx:92 | in 60..100; 60 plus 5 for every full 2000 code units, capped at 100 |
| Analyzer.ToneMonotone | src/pages/Index.tsx:92 | a longer resume never has a lower tone score |
| Analyzer.Utf16Length | src/pages/Index.tsx:92 | `length` counts UTF-16 code units, between the number of code points and twice that |
| Analyzer.AtsScore | src/pages/Index.tsx:93 | in 40..70; 70 minus 5 per tab or pipe, floored at 40 |
| Analyzer.AtsAntitone | src/pages/Index.tsx:93 | more tabs or pipes never raise the ATS score |
| Analyzer.LayoutMarks | src/pages/Index.tsx:93 | the number of matches of `/\t\|\|/g` is the number of tabs plus the number of pipes, at most the text length |
| Analyzer.HeuristicAnalyze | src/pages/Index.tsx:57-113 | bounds: match 0..100, at most 25 missing, 1..8 strengths, tone 60..100, ATS 40..70 |
| Analyzer.ToneNeverDestructive | src/pages/Index.tsx:92 | the heuristic tone score is never shown in the destructive colour |
| Analyzer.AtsBands | src/pages/Index.tsx:93 | the heuristic ATS score is never in the success band; it is destructive iff the resume has at least 3 tabs or pipes |
| Analyzer.Submit | src/pages/Index.tsx:115-148 | "missing information" iff either text is blank; otherwise the model's result when there is one, the heuristic (flagged local) when not |
| Results.ScoreColor | src/components/AnalysisResults.tsx:54-58 | the class is "text-" followed by the score's band |
| Results.ScoreBg | src/components/AnalysisResults.tsx:60-64 | the class is "bg-" followed by the score's band |
| Results.MatchLabel | src/components/AnalysisResults.tsx:82-83 | the label is the band's word: Excellent, Good or Needs Improvement |
| Results.ColorAndBackgroundAgree | src/components/AnalysisResults.tsx:54-64 | the text colour and the background always name the same band |
| Results.BandMonotone | src/components/AnalysisResults.tsx:54-64 | a higher score never falls in a worse band |
| Results.Render | src/components/AnalysisResults.tsx:34-200 | skeleton iff loading; otherwise the colours and label follow the bands; the "all present" note appears iff no keyword is missing, and the badges are exactly the missing keywords; the scores, the tone feedback and the lists shown are those of the analysis |
| Responses.CleanResponse | src/services/gemini.ts:71-85 | the cleaned text has no white space at either end |
| Responses.FencedObjectCleaned | src/services/gemini.ts:71-85 | a JSON object in a "```json" or "```" block, padded with any white space, is cleaned back to the object |
| Responses.BareObjectCleaned | src/services/gemini.ts:71-85 | an unfenced object padded with white space reaches the parser unchanged |
| Responses.JsonFenceDropped | src/services/gemini.ts:74-79 | a "```json" fence and the white space after it are removed, and no second strip follows |
| Responses.PlainFenceDropped | src/services/gemini.ts:74-79 | a plain "```" fence before an object is not mistaken for "```json" and is removed |
| Responses.ClosingFenceDropped | src/services/gemini.ts:80-82 | the closing fence and the white space before it are removed |
| Responses.BlockContentsKept | src/services/gemini.ts:74-85 | the fence strips and the final trim leave exactly the object inside a code block |
| Responses.UnfencedOnlyTrimmed | src/services/gemini.ts:71-85 | a response whose trimmed form neither starts nor ends with "```" is only trimmed, whatever it holds |
| Responses.ExtractBraces | src/services/gemini.ts:95 | a match exists iff some `}` follows the first `{`; it runs from the first `{` to the last `}` |
| Responses.EmbeddedObjectExtracted | src/services/gemini.ts:95 | an object embedded in prose that has no `{` before it and no `}` after it is extracted exactly |
| Responses.ClassifyAnalyzeError | src/services/gemini.ts:106-118 | first match wins: API_KEY_INVALID, then QUOTA_EXCEEDED, then PERMISSION_DENIED; the generic failure iff none occurs |
| Responses.ClassifyImproveError | src/services/gemini.ts:157-167 | only the key, quota or generic error is possible; key before quota; generic iff neither occurs |
| Responses.HandlersDifferOnPermission | src/services/gemini.ts:110-118 | the two handlers agree on key and quota errors; a permission failure is named only when analysing |
| Responses.InvalidJsonBecomesGenericFailure | src/services/gemini.ts:104-118 | the invalid-JSON error is caught by the outer handler and rethrown as the generic analysis failure (the page then falls back to the heuristic) |
| Responses.FencedObjectParsed | src/services/gemini.ts:71-88 | a fenced object that parses is returned parsed |
| Responses.EmbeddedObjectParsed | src/services/gemini.ts:89-98 | when the cleaned text does not parse but its embedded object does, the object is returned |
| Responses.UnparsableReplyFails | src/services/gemini.ts:87-118 | a reply that parses neither whole nor from its braces ends in the generic failure |
| Responses.AnalysisErrors | src/services/gemini.ts:104-118 | after initialisation, every analysis failure is one of the four errors of the handler |
| Gemini.DropOpeningFences | src/services/gemini.ts:74-79 | the two guarded opening strips, applied step by step, agree with the clean-up specification |
| Gemini.DropClosingFence | src/services/gemini.ts:80-82 | the guarded closing strip, applied step by step, agrees with the clean-up specification |
| Gemini.Clean | src/services/gemini.ts:71-85 | the step-by-step reassignments of `cleanedText` compute exactly `CleanResponse` |
| Gemini.GeminiService.constructor | src/services/gemini.ts:4 | the service starts with no client |
| Gemini.GeminiService.Initialize | src/services/gemini.ts:6-15 | succeeds iff the key is present, non-empty and not the placeholder; on failure returns the key-not-found error and leaves the state as it was; on success holds a client made from that key |
| Gemini.GeminiService.IsInitialized | src/services/gemini.ts:17-19 | true iff a client is held |
| Gemini.GeminiService.AnalyzeResume | src/services/gemini.ts:21-24 | without a client, fails with "not initialized"; otherwise gives the clean-up, parse, fallback and error-mapping outcome |
| Gemini.GeminiService.GenerateImprovedResume | src/services/gemini.ts:122-125 | without a client, fails with "not initialized"; otherwise gives the trimmed text or the mapped error |
| Preview.ClassifyAs | src/components/ResumePreview.tsx:70-103 | heading iff the line is a heading; bullet iff it is no heading and its trimmed form starts with a marker; paragraph iff it is non-blank, no heading and unmarked; spacer iff blank; every non-spacer shows the trimmed line |
| Preview.FormatResumeText | src/components/ResumePreview.tsx:67-105 | one element per `'\n'`-separated line, one more than the number of newlines |
| Preview.OneElementPerLine | src/components/ResumePreview.tsx:68 | lines joined by newlines give one element each, in their order, each the classification of its line |
| Preview.OneLineResume | src/components/ResumePreview.tsx:68-105 | a resume of one line without a newline is shown as that line's classification alone |
| Preview.NoLowerCaseIsHeading | src/components/ResumePreview.tsx:70-71 | a non-blank line with no lower-case letter is a heading, so "2020" and "- ITEM" are headings |
| Preview.SectionNameBeatsBullet | src/components/ResumePreview.tsx:70-85 | any non-blank line that names EXPERIENCE, EDUCATION, SKILLS or CONTACT is a heading, even when it starts with a marker |
| Preview.DashOrStarLineIsBullet | src/components/ResumePreview.tsx:85-91 | a non-heading line whose trimmed form starts with "-" or "*" is a bullet showing the trimmed line, whatever the first marker |
| Preview.OtherLineIsParagraph | src/components/ResumePreview.tsx:93-99 | any other non-blank line is a paragraph showing the trimmed line |
| Preview.BlankResumeShowsSpacers | src/components/ResumePreview.tsx:103-140 | a non-empty resume made only of white space shows only spacers, and download stays disabled |
| Preview.PreviewPane | src/components/ResumePreview.tsx:132-140 | the placeholder appears iff the resume is the empty string; otherwise one element per line |
| Preview.DownloadEnabled | src/components/ResumePreview.tsx:119 | the button is enabled iff the resume is not all white space |
| Preview.GlyphIsNoMarkerAsWritten | src/components/ResumePreview.tsx:85 | a text starting with "•" matches none of the three markers as written |
| Preview.GlyphLineNotBulletAsWritten | src/components/ResumePreview.tsx:85 | as written, a line whose trimmed form starts with "•" is never a bullet |
| Preview.GlyphSampleParagraphAsWritten | src/components/ResumePreview.tsx:85-99 | as written, the line "• Led" is shown as a paragraph |
| Preview.GlyphResumePaneAsWritten | src/components/ResumePreview.tsx:132-134 | as written, the pane for the resume "• Led" holds one paragraph |
| Preview.GlyphLineIsBullet | src/components/ResumePreview.tsx:85-91 | with the glyph as marker, a non-heading line starting with "•" is a bullet |
| Preview.GlyphSampleBullet | src/components/ResumePreview.tsx:85-91 | with the glyph as marker, the line "• Led" is a bullet |
| Preview.GlyphResumePaneCorrected | src/components/ResumePreview.tsx:132-134 | with the glyph as marker, the pane for the resume "• Led" holds one bullet |
| Text.Trim | src/services/gemini.ts:71 | the result has no white space at either end; it is empty iff the input is all white space |
| Text.TrimPadded | src/services/gemini.ts:85 | trimming removes exactly the surrounding white space |
| Text.Split | src/components/ResumePreview.tsx:68 | at least one piece; no piece holds the separator; joining the pieces gives the text back |
| Text.SplitJoin | src/components/ResumePreview.tsx:68 | splitting a join of separator-free pieces gives the pieces back |
| Text.SplitCount | src/components/ResumePreview.tsx:68 | there is one piece more than there are separators |

## Left out

- `html2canvas` and `jsPDF` are foreign libraries, and the export's page loop works on floating-point heights, so `downloadAsPDF` (src/components/ResumePreview.tsx:17-65) is not modelled.
- The network call, the prompts and the model name are left out. The call's outcome is the `Reply` input.
- `JSON.parse` is left out; it is a function input that yields nothing where it would throw. The shape of the parsed value is not checked, just as the source does not check it.
- React state, toasts, `console` logging and the JSX markup are left out; only the choices they display are modelled.
- The resume and job-description input components and the page layout are not part of this model.
- Analyzer.Tokenize: `toLowerCase` is modelled on ASCII letters only. A non-ASCII letter whose lower case is ASCII, such as KELVIN SIGN becoming "k", is blanked instead of kept.
- Preview.ClassifyAs: `toUpperCase` is modelled on ASCII letters only, so the heading test compares ASCII case.
- Analyzer.RoundedPercent: rounds the exact ratio, halves up. The source multiplies a floating-point quotient by 100 before `Math.round`, which can differ at some exact halves.
- Analyzer.HeuristicAnalyze: scores are integers. A score that comes from the language model may be any number; it only flows through `Results.Render`.
- Analyzer.Submit: does not model how the service's outcome becomes `aiResult`. The page uses whatever `analyzeResume` returns only when the value is truthy. A reply that parses to a falsy JSON value (`null`, `false`, `0`, `""`) also falls back to the heuristic. A truthy value of another shape is used as it is. `aiResult` is an input that is absent in exactly the cases the page falls back.
- Responses.ClassifyAnalyzeError: an error without a `message` is modelled as one with an empty message. Both lead to the generic failure.
- `getScoreBg` is never called in the results panel. `Results.ScoreBg` models it anyway.

## Findings

| source | as written | input that shows it | evidently intended | confidence | as-written member | corrected member |
|---|---|---|---|---|---|---|
| src/components/ResumePreview.tsx:85 | the first bullet marker is "â€¢" (U+00E2 U+20AC U+00A2), the UTF-8 bytes of "•" decoded as Windows-1252; AnalysisResults.tsx:196 spells the glyph correctly | the line "• Led" | a line whose trimmed form starts with "•" (U+2022) is a bullet | high (not executed) | Preview.GlyphResumePaneAsWritten | Preview.GlyphLineIsBullet |
