# SpeakTospeakFront page logic in Dafny

A model of the logic inside the React pages of SpeakTospeakFront, a front end
for preparing and practising spoken presentations. The source is TypeScript.
The user loads slides and writes or dictates a Chinese note per page. The note
is translated to English. The user then records each sentence and gets an
evaluation back. The model covers:

- **WAV encoding** (`SampleBuffer`, `WavEncoder`). `exportWAV` concatenates the
  captured sample blocks. `encodeWAV` writes the canonical 44-byte mono
  16-bit PCM RIFF WAVE header, then quantises each sample: clamp to [-1, 1],
  scale by 32768 below zero and by 32767 otherwise, truncate toward zero. The
  two functions appear verbatim in six pages. The model is written once and
  cites the copy in `src/pages/PDFTest.tsx`; the other copies are
  `src/pages/SetSpeech.tsx:129-172`, `src/pages/Rehearsals.tsx:190-233`,
  `my-react-app/src/pages/SetSpeech.tsx:99-142`,
  `my-react-app/src/pages/audioTest.tsx:55-98` and
  `my-react-app/src/pages/Audio.tsx:44-87`. A decoder reads the bytes back,
  and a round-trip lemma ties the two together.
- **Capture lifecycle** (`Capture`). `startRecording` and `stopRecording` form
  a state machine over abstract events. A click creates an audio context, and
  the device request then succeeds or fails. Blocks arrive while capture is
  live, and stop ends the capture. The recording flag becomes true only when
  the device is granted, whatever the clicks (`Capture.FlagNeedsGrant`). Nothing rejects a second start while one is pending.
  With the buttons' enable/disable guard, every stop directly follows a grant.
- **Reply values** (`Json`). JSON values, JavaScript truthiness, `String(x)`,
  `x || d` and destructuring defaults. A reply whose `reply` field is a
  string parses to `{}`.
- **Text utilities** (`Html`, `Highlight`, `Translation`):
  - `escapeHtml`, with an unescaping partner;
  - `highlightText`, a left fold of literal, case-insensitive, whole-word
    replacements;
  - the cleaning of a translation reply: quote strip, split on runs of two or
    more newlines, drop blank lines.
- **Navigation** (`Navigation`). The previous/next clamps, the advance made
  by "complete page", and the missing-pages scan.
- **Per-page stores** (`PageStore`, `SetSpeechPage`, `PdfTestPage`,
  `RehearsalsPage`, `AudioTestPage`). These are functional map updates. An
  asynchronous completion is an explicit event that carries the page (and
  sentence) captured when the request was issued. In `PdfTestPage` a failed
  upload replaces the page's entry by a flat result object, which wipes the
  page's sentences.

The model follows the code as written, including three behaviours a reader
might not expect:

- a second start is not refused while one is pending;
- the sentence index is not clamped when the page changes;
- later highlight tokens may match inside markup inserted by earlier ones (`Highlight.LaterTokenMatchesMarkup`).

## Model

| member | source | states |
|---|---|---|
| SampleBuffer.Concatenate | src/pages/PDFTest.tsx:130-137 | The buffer filled block by block at running offsets has the summed length and equals the in-order concatenation of the blocks (loop invariants). The same loop is in the five other copies. |
| SampleBuffer.FlattenLength | src/pages/PDFTest.tsx:131 | The concatenation is exactly as long as the `reduce` sum of the block lengths. |
| SampleBuffer.FlattenAppend | src/pages/PDFTest.tsx:134-137 | Concatenation preserves block order: flattening two runs of blocks is flattening each and appending. |
| SampleBuffer.BlockInPlace | src/pages/PDFTest.tsx:135-136 | Block k sits in the flattened data at the offset equal to the total length of the blocks before it. |
| WavEncoder.Clamp | src/pages/PDFTest.tsx:167 | `Math.max(-1, Math.min(1, x))` lies in [-1, 1], is the identity inside it, and maps values outside to the nearer end. |
| WavEncoder.ToInt16 | src/pages/PDFTest.tsx:168 | DataView's ToInt16 conversion (truncate, then wrap modulo 2^16) always yields a value in [-32768, 32767]. |
| WavEncoder.Quantize | src/pages/PDFTest.tsx:167-168 | A quantised sample is in [-32768, 32767], and the 16-bit wrap never changes it. It keeps the sign of the input. Inputs at or below -1 give -32768, and inputs at or above 1 give 32767 (asymmetric scale). |
| WavEncoder.QuantizeWithinOneStep | src/pages/PDFTest.tsx:167-168 | Reading a quantised sample back lands within one quantisation step of the clamped input, on the side of zero (truncation toward zero). |
| WavEncoder.HeaderLayout | src/pages/PDFTest.tsx:151-163 | The header is, in order: "RIFF", LE32(36+2n), "WAVE", "fmt ", LE32 16, LE16 1, LE16 1, LE32 rate, LE32 2·rate, LE16 2, LE16 16, "data", LE32 2n. |
| WavEncoder.SampleBytes | src/pages/PDFTest.tsx:165-170 | There are 2n sample bytes, and sample i is the little-endian 16-bit encoding of its quantised value at bytes 2i and 2i+1. |
| WavEncoder.Encode | src/pages/PDFTest.tsx:142-172 | The file is 44 + 2n bytes: the header, then sample i at offsets 44+2i and 45+2i. |
| WavEncoder.WriteHeader | src/pages/PDFTest.tsx:151-163 | The thirteen DataView stores leave the buffer's length unchanged and put exactly the header in its first 44 bytes. |
| WavEncoder.EncodeWav | src/pages/PDFTest.tsx:142-172 | The imperative encoder (header stores, then the sample loop with its running offset) produces exactly the bytes of the declarative file layout. |
| WavEncoder.ExportWav | src/pages/PDFTest.tsx:130-140 | Exporting captured blocks gives a file of 44 + 2·(sum of block lengths) bytes. |
| WavEncoder.HeaderFields | src/pages/PDFTest.tsx:152-163 | Read back as little-endian integers, the header fields are the PCM constants, with RIFF size 36+2n, byte rate 2·rate and data size 2n, when those fit in 32 bits. |
| WavEncoder.DecodeEncode | src/pages/PDFTest.tsx:142-172 | Decoding an encoded file returns the sample rate and the quantised samples, for any sample count and rate whose derived header fields fit in 32 bits. |
| WavEncoder.EmptyRecording | src/pages/PDFTest.tsx:142-164 | With no samples the file is just the 44-byte header, with RIFF size 36 and data size 0. |
| WavEncoder.I16OfLE16 | src/pages/PDFTest.tsx:168 | A value in the 16-bit range written little-endian reads back as itself. |
| WavEncoder.U32OfLE32 | src/pages/PDFTest.tsx:152 | A 32-bit little-endian store reads back as the value modulo 2^32 (setUint32 wraps). |
| Capture.Step | src/pages/PDFTest.tsx:89-128 | A start click records the new context's rate and one more pending request, leaving flag, capture and buffer as they were. A granted device starts a live capture with an empty buffer and sets the flag. A denied one leaves flag, capture and buffer as they were. A delivered block is appended while capture is live. Stop ends the capture, keeps the buffer it exports and clears the flag; blocks delivered after stop are dropped. Validity is preserved. |
| Capture.StopOutput | src/pages/PDFTest.tsx:114 | Stop produces a WAV exactly when an audio context exists, and it is 44 + 2·(samples captured) bytes long. |
| Capture.FlagNeedsGrant | src/pages/PDFTest.tsx:89-106 | With no guard on the controls, a trace that starts with the flag cleared and ends with it set contains a device grant: only `setRecording(true)` after the microphone request resolves sets it. |
| Capture.RunValid | src/pages/PDFTest.tsx:89-128 | Any feasible sequence of clicks, device answers, deliveries and stops keeps the recorder consistent. |
| Capture.UiStopsFollowGrants | my-react-app/src/pages/Audio.tsx:92-93 | With start enabled only while idle and stop only while recording, the flag is set exactly when the last flag-changing event was a grant, and every stop directly follows a grant. |
| Capture.BusyStartDiscardsCapture | src/pages/PDFTest.tsx:89-106 | Nothing refuses a second start: when its device request is granted during a recording, the blocks captured so far are dropped. |
| Capture.DeliveriesAppend | src/pages/PDFTest.tsx:97-100 | While capture is live, delivered blocks are appended at the end, in delivery order. |
| Capture.CaptureSession | src/pages/PDFTest.tsx:96-114 | A grant followed by deliveries and a stop yields the WAV of exactly the delivered blocks, and the flag is cleared. The same holds for the start/stop pairs of the other five pages. |
| Json.Or | src/pages/Rehearsals.tsx:155-158 | The logical-or default `o.key or d` is always truthy or the default itself, and it is truthy whenever the default is. |
| Json.OrAgreesWithDefault | src/pages/PDFTest.tsx:191-196 | A destructuring default (`const { key = d } = o`) and the logical-or default give the same value exactly when the key is absent, its value is truthy, or its value is the default. Where they differ, the destructured value is a present falsy value that is kept. |
| Json.Unwrap | src/pages/PDFTest.tsx:187-189 | A string `reply` field makes the parsed object empty, because `reply.content` is undefined. Any other response is used as it is. The parsed object never holds a string `reply`, and each of its fields is the response's field. |
| Json.UnwrapIdempotent | src/pages/PDFTest.tsx:187-189 | Unwrapping an already unwrapped object changes nothing. |
| Json.ToString | src/pages/PDFTest.tsx:205-208 | `String(x)` of a string is the string, of null "null", of a boolean "true" or "false", and of an object "[object Object]". An integer becomes a numeral without leading zeros that reads back as the same integer. The same coercion is at my-react-app/src/pages/audioTest.tsx:124-128. |
| Json.DecimalRoundTrip | src/pages/PDFTest.tsx:205-208 | Reading the decimal digits written for a natural number gives that number back. |
| Html.Entity | src/pages/PDFTest.tsx:229-235 | Each of `& < > " '` maps to an entity that starts with `&` and ends with `;`. Every other character maps to itself. |
| Html.EscapeHtml | src/pages/Rehearsals.tsx:167-176 | The escaped text contains none of `< > " '`, is never shorter than the input, and equals the input when the input has no special character. |
| Html.EscapeConcat | src/pages/Rehearsals.tsx:175 | Escaping distributes over concatenation. |
| Html.UnescapeEscape | src/pages/PDFTest.tsx:228-237 | Escaping loses nothing: decoding the five entities gives back the original text. |
| Highlight.EscapeRegExp | src/pages/Rehearsals.tsx:182 | Escaping regex syntax characters never shortens a token. |
| Highlight.EscapedTokenIsLiteral | src/pages/Rehearsals.tsx:182 | The escaped pattern denotes exactly the token as a literal string, whatever metacharacters it holds. |
| Highlight.ScanSpells | src/pages/Rehearsals.tsx:184 | Removing the highlight marks from one replacement step gives back its input unchanged. |
| Highlight.ScanSound | src/pages/Rehearsals.tsx:183-184 | Every wrapped span is a case-insensitive occurrence of the token bounded by `\b` on both sides. The wrapped text keeps its original casing. |
| Highlight.ScanComplete | src/pages/Rehearsals.tsx:183-184 | For a non-empty token, no unwrapped position starts a bounded case-insensitive occurrence, so the global replacement misses none. |
| Highlight.ScanPieceSound | src/pages/Rehearsals.tsx:183-184 | Piece by piece: a wrapped piece of the replacement starting at any position is a bounded case-insensitive occurrence at the place it was cut from. |
| Highlight.ScanPieceComplete | src/pages/Rehearsals.tsx:183-184 | Piece by piece: for a non-empty token, an untouched character is not the start of a bounded occurrence. |
| Highlight.NoDifferences | src/pages/PDFTest.tsx:239-249 | With no differences, the highlighted text is exactly the escaped text. |
| Highlight.HighlightSnoc | src/pages/Rehearsals.tsx:178-188 | highlightText is a left fold: adding one more token applies its replacement to the result of the earlier ones. |
| Translation.StripQuotes | src/pages/SetSpeech.tsx:199 | Exactly one surrounding pair of quotes is removed, and only when the reply starts and ends with `"` and has no line terminator between. Otherwise the reply is unchanged. |
| Translation.StripQuotesOfQuoted | src/pages/SetSpeech.tsx:199 | A single line wrapped in quotes comes back exactly, inner quotes included. |
| Translation.SplitReassembles | src/pages/SetSpeech.tsx:202-203 | Joining the split pieces with the runs they were split at gives the reply back, and every run has two or more newlines. |
| Translation.SplitPiecesSingleSpaced | src/pages/SetSpeech.tsx:203 | No piece contains two consecutive newlines. |
| Translation.SplitRunsMaximal | src/pages/SetSpeech.tsx:203 | A run of newlines is consumed whole. A piece before a run does not end with a newline, and a piece after one does not start with one. |
| Translation.SplitParagraphs | src/pages/SetSpeech.tsx:202-203 | The split has the full shape above: pieces and runs interleave back to the input, runs are maximal and at least two long, and pieces hold no double newline. |
| Translation.BlankIffWhitespace | src/pages/SetSpeech.tsx:204 | A line is blank after trim exactly when every character is white space. |
| Translation.DropBlank | src/pages/SetSpeech.tsx:204 | Every line kept is non-blank and comes from the input. |
| Translation.DropBlankConcat | src/pages/SetSpeech.tsx:204 | Filtering keeps source order: it distributes over concatenation. |
| Translation.DropBlankKeeps | src/pages/SetSpeech.tsx:204 | Every non-blank line of the input is kept. |
| Translation.CleanReply | src/pages/SetSpeech.tsx:199-204 | Every stored line is non-blank, holds no run of two or more newlines, and is one of the paragraphs of the quote-stripped reply. |
| Navigation.PrevPage | src/pages/SetSpeech.tsx:377 | The previous page is p-1, but never below 1. |
| Navigation.NextPage | src/pages/SetSpeech.tsx:393 | The next page is p+1, but never above the page count. |
| Navigation.Advance | src/pages/SetSpeech.tsx:177-181 | Completing a page moves to p+1 when p is before the last page, and otherwise stays. It never moves by more than one. |
| Navigation.NavigateStaysInRange | src/pages/PDFTest.tsx:464-481 | From a page of the document, any sequence of previous/next clicks stays within [1, pageCount]. The same clamps are at src/pages/Rehearsals.tsx:415,431 and my-react-app/src/pages/SetSpeech.tsx:262,278. |
| Navigation.AdvanceStaysInRange | src/pages/SetSpeech.tsx:214-218 | Completing a page of the document stays within it. |
| Navigation.MissingPages | src/pages/SetSpeech.tsx:415-419 | The list is strictly ascending and holds exactly the pages 1..pageCount whose translation is absent or empty. |
| PageStore.Store | src/pages/SetSpeech.tsx:101 | `{ ...prev, [key]: value }` sets the key and leaves every other key and value as it was. |
| PageStore.StoreTwice | my-react-app/src/pages/SetSpeech.tsx:95 | For recording URLs the last write wins. |
| PageStore.StoreCommutes | src/pages/SetSpeech.tsx:206-209 | Writes to different pages commute, so completions for different pages may land in either order. |
| SetSpeechPage.EditNote | my-react-app/src/pages/SetSpeech.tsx:209-212 | Typing writes only the note of the page shown; other notes, translations and URLs are unchanged. The same handler is at src/pages/SetSpeech.tsx:290-293. |
| SetSpeechPage.CurrentNote | src/pages/SetSpeech.tsx:183 | The note sent is the stored one when it is truthy, and "" otherwise. |
| SetSpeechPage.StopRecording | src/pages/SetSpeech.tsx:94-102 | Stop stores the URL under the page shown and captures that page for the transcription. The same URL write is at my-react-app/src/pages/SetSpeech.tsx:87-96. |
| SetSpeechPage.Transcript | src/pages/SetSpeech.tsx:121 | The transcript field is taken as sent. An absent one is stored as a falsy value. |
| SetSpeechPage.FinishTranscription | src/pages/SetSpeech.tsx:107-126 | A transcription writes only the note of the captured page. A failure leaves the notes (and everything else) unchanged. |
| SetSpeechPage.CompletePage | src/pages/SetSpeech.tsx:174-183 | Without a document nothing happens. Otherwise the page advances at once and the request captures the page, the page count and the note. |
| SetSpeechPage.TranslatedLines | src/pages/SetSpeech.tsx:196-204 | A translation is stored exactly when the request succeeded and `reply` is a string (anything else throws), and it is the cleaned reply. |
| SetSpeechPage.FinishCompletion | src/pages/SetSpeech.tsx:196-218 | The cleaned lines go to the captured page, and other pages keep theirs. When the captured page was before the last one, the page is set to the one after it. On the last page the page shown is left as it is. |
| SetSpeechPage.CompletionAdvancesOnce | src/pages/SetSpeech.tsx:177-218 | Both page updates use the captured page. Before the last page the completion ends exactly one page further on, whatever the user did meanwhile. On the last page the user's navigation in the meantime stands. The translation lands on the page where "complete" was clicked. |
| SetSpeechPage.LastPageKeepsNavigation | src/pages/SetSpeech.tsx:214-218 | On the last page, going back while the translation is pending leaves the user on the previous page after the reply. |
| SetSpeechPage.StoredLinesClean | src/pages/SetSpeech.tsx:202-209 | If every stored translation line is non-blank and holds no double newline, that stays true after any completion. |
| SetSpeechPage.NextStep | src/pages/SetSpeech.tsx:407-431 | Without a loaded document and buffer it asks for a PDF. Otherwise it lists the missing pages in ascending order when there are any, and moves on, carrying the translations, exactly when none is missing. |
| PdfTestPage.Normalize | src/pages/PDFTest.tsx:191-210 | Absent fields become "". String fields are kept. Differences are kept only when they are an array (`PdfTestPage.DifferencesOf`). The URL is the recording's. |
| PdfTestPage.StoreRecordingUrl | src/pages/PDFTest.tsx:117-123 | The URL lands at [page][sentence]. Other sentences of the page and other pages are unchanged. |
| PdfTestPage.ApplyUpload | src/pages/PDFTest.tsx:200-224 | An upload completion touches only the captured page's entry. |
| PdfTestPage.SuccessWritesOnlyItsSlot | src/pages/PDFTest.tsx:200-212 | A success sets the captured [page][sentence] to the normalised reply. Every other sentence, on that page or another, reads as before through `PdfTestPage.Lookup`, the `?.[i] ?? default` read of src/pages/PDFTest.tsx:43-49. |
| PdfTestPage.FailureClearsPage | src/pages/PDFTest.tsx:215-224 | A failure replaces the page's entry by the flat failure result. Afterwards every sentence of that page reads as the empty default through `PdfTestPage.Lookup`, while other pages are unchanged. |
| PdfTestPage.SuccessAfterFailure | src/pages/PDFTest.tsx:200-224 | After a failure, a success on the same page holds only its own sentence. The flat entry contributes no sentences to the spread (`PdfTestPage.SentencesOf`); its named fields are copied as well, but no sentence lookup reads them. |
| PdfTestPage.StringReplyIsEmpty | src/pages/PDFTest.tsx:187-210 | A reply whose `reply` field is a string stores the all-empty result, with only the recording URL set. |
| PdfTestPage.StopRecording | src/pages/PDFTest.tsx:108-126 | Stop stores the URL for the slot shown and captures that slot for the upload. |
| PdfTestPage.FinishUpload | src/pages/PDFTest.tsx:200-224 | The completion changes only the results, never the page or sentence shown. |
| PdfTestPage.ResultFollowsCapturedSlot | src/pages/PDFTest.tsx:108-212 | A result lands on the slot shown at stop even when the user moved elsewhere meanwhile, and the slot now shown is untouched unless it is that one. |
| RehearsalsPage.Summarize | src/pages/Rehearsals.tsx:154-159 | Each stored field is the reply's value when that is truthy, and otherwise '' or []. So every field is truthy or its default. |
| RehearsalsPage.ApplyAnalysis | src/pages/Rehearsals.tsx:141-164 | A failure changes nothing. A reply writes only the captured page. |
| RehearsalsPage.AnalysisWritesOnlyItsPage | src/pages/Rehearsals.tsx:152-160 | After a reply the captured page shows the summarised reply, and every other page shows what it did before, both read through `RehearsalsPage.CurrentPage` (src/pages/Rehearsals.tsx:32-37). |
| RehearsalsPage.StringReplyShowsDefault | src/pages/Rehearsals.tsx:148-160 | A reply whose `reply` field is a string leaves the page showing the empty default of `RehearsalsPage.CurrentPage`. |
| RehearsalsPage.StopRecording | src/pages/Rehearsals.tsx:128-136 | Stop stores the URL under the page shown and captures that page. |
| RehearsalsPage.SummaryShownIff | src/pages/Rehearsals.tsx:352 | A summarised reply can be rendered exactly when its `predict` is a string or falsy and its `differences` are a string, an array of strings or falsy. Otherwise `highlightText` throws. With an array of strings, the page shows the reference text highlighted by exactly those tokens. |
| RehearsalsPage.StringDifferencesAreCharacters | src/pages/Rehearsals.tsx:181 | A non-empty string `differences` is iterated character by character, each character highlighted as a token. |
| Highlight.LaterTokenMatchesMarkup | src/pages/Rehearsals.tsx:181-185 | The passes do not skip inserted markup: after a token has been wrapped, a later token "span" (in any case) matches the tag name just inserted. |
| RehearsalsPage.AnalysisFollowsCapturedPage | src/pages/Rehearsals.tsx:128-160 | The analysis lands on the page where recording stopped, even when the user moved to another page, whose display is unaffected. |
| AudioTestPage.Field | my-react-app/src/pages/audioTest.tsx:116-128 | A missing field becomes "". A string is shown as it is. A null is shown as "null" (the default does not apply to it). |
| AudioTestPage.ApplyUpload | my-react-app/src/pages/audioTest.tsx:116-132 | A reply sets all five fields from the parsed object. A failure changes only the suggestion, to the failure message. |
| AudioTestPage.ReplyForgetsPanel | my-react-app/src/pages/audioTest.tsx:124-128 | A reply replaces every field, so nothing of the previous panel survives. |
| AudioTestPage.StringReplyClears | my-react-app/src/pages/audioTest.tsx:112-128 | A reply whose `reply` field is a string clears every field. |
| AudioTestPage.StringFieldsShown | my-react-app/src/pages/audioTest.tsx:116-128 | A reply with all five fields as strings shows exactly those strings. |
| AudioTestPage.FailureKeepsResults | my-react-app/src/pages/audioTest.tsx:129-132 | A failure keeps the four result fields, and a second failure changes nothing more. |

## Left out

- Web Audio objects (AudioContext, getUserMedia, ScriptProcessor, track stop) are abstract events. A start that overlaps another leaves the earlier processor connected, and it keeps appending to the shared buffer after stop. The model drops blocks delivered after stop. The next grant clears the buffer before any export, so no exported WAV differs.
- Network and browser plumbing are left out: fetch, FormData, Blob, object URLs and text-to-speech. An upload's outcome is a parameter: a failure, or the parsed reply object. Object URLs are opaque strings given as parameters.
- JSON.parse of `reply.content` and the stripping of code fences are left out. Only the observable case is modelled: a string `reply` has no `content`, so the parsed object is empty.
- Float32 rounding, NaN and ±Infinity are left out. Samples are real numbers, and JavaScript numbers in replies are integers.
- WavEncoder.HeaderFields: the readback is stated only when 36+2n and 2·rate fit in 32 bits. The encoder itself wraps modulo 2^32 exactly as setUint32 does.
- WavEncoder.DecodeEncode: the round trip assumes the same 32-bit bounds.
- WavEncoder.WriteHeader: states only that the buffer length is kept and the header written. It does not state that bytes 44 onward are untouched.
- Translation.IsWhitespace: `trim()` is modelled over the ASCII white-space set, not the full Unicode one.
- Highlight.Fold: case-insensitive matching folds ASCII letters only.
- Highlight.ScanComplete: stated for a non-empty token. An empty token is modelled (it marks every word boundary) but has no completeness lemma.
- Highlight.LaterTokenMatchesMarkup: later tokens are matched inside inserted markup, but only the tag-name case is stated. No lemma describes in general what a later token does inside inserted markup.
- PdfTestPage.Normalize: the stored `differences` array keeps its items as they are. The sentence page's rendering with `highlightText` (src/pages/PDFTest.tsx:379), which throws on an item that is not a string, is not modelled.
- RehearsalsPage.Shown: a throw during rendering is None. What React then shows is not modelled.
- Json.ToString: every integer is written out in full. JavaScript writes a number of magnitude 10^21 or more in exponent form ("1e+21"), and non-integer numbers are not modelled.
- PdfTestPage.PageEntry: a page object is modelled as either a map of sentences or the flat failure result. After a failure then a success, the source's page object also carries the flat result's five named fields next to the new sentence. Only integer sentence keys are ever read (src/pages/PDFTest.tsx:43), so those fields are not modelled.
- PDF loading, page rendering, WaveSurfer, JSX, styling and routing are left out. Whether a document and a buffer are loaded, and the page count, are plain fields.
- React's batching of state updates is not modelled. Each completion event applies its update to the state current at that moment.
- SetSpeechPage.Transcript: an absent `transcript` is stored as null instead of undefined. Both are falsy and read the same when defaulted with logical or.
- The status-text strings and the alerts' wording are left out. The outcome of "next step" is a datatype.
