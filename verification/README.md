# expo-app core, modelled in Dafny

A Dafny model of the logic at the heart of an Expo / React Native reading
assistant. The model covers seven parts:

- **Speech driver** (`TtsService`): a single object that speaks text through
  the platform engine. It keeps an `isPlaying` flag and stores a clamped
  default rate and pitch. It forwards speak, stop, pause and resume, with
  pause and resume working only on iOS.
- **Read-aloud page** (`TextReaderPage`, `Tokenizer`): splits its text with
  `text.split(/(\s+)/)`. Play, pause, resume and stop drive the speech
  driver. An interval timer moves a highlight one token per tick.
- **Retrying OCR client** (`OcrClient`): makes up to three attempts against
  the OCR.space web service, sleeping 1000 ms × k after a thrown attempt k
  when k is 1 or 2, and not at all after the third.
  Every failure becomes one of four user-facing messages. It also has the
  API-key helpers and a one-shot `extractTextFromImage`.
- **Demo OCR client** (`OcrDemo`): reloads its key from storage before each
  request and never throws. A failure comes back as a sample text with the
  failure's message after "Note: ".
- **PDF lists** (`PdfListSection`, `PdfListLegacy`, `PdfDocuments`): two
  versions of the document list, each with an options menu. The menu is an
  action sheet on iOS and a modal elsewhere. The newer list has sort labels
  and asks for confirmation before deleting. The older one offers OCR and
  deletes at once.
- **Dynamic Expo configuration** (`ExpoConfig`): pins `android.package` and
  `extra.eas` and keeps everything else.

Shared JavaScript behaviour lives in `JsRuntime`:

- `||` on strings and numbers
- ECMAScript white space and `trim`
- `includes`
- `substring(0, n)`
- decimal printing

The OCR.space request and response shapes live in `OcrSpace`.

Anything that talks to the outside world is an input to the model, never
something it calls. This covers:

- `fetch` and `response.json()`
- image preparation
- `AsyncStorage`
- the speech engine's queries
- the clock
- the platform check (`Platform.OS === 'ios'` is a boolean parameter)

Commands the speech driver sends to the engine are appended to a log. React
state updates are applied in order, and each event handler is a pure
transition on a record of the component's state. Timer ticks are abstract
events, not time.

## Model

| member | source | states |
|---|---|---|
| JsRuntime.StringOr | src/services/OCRService.ts:141 | `a \|\| d` on an optional string: the value when present and non-empty, otherwise the default |
| JsRuntime.NumberOr | services/TTSService.ts:21-22 | `a \|\| d` on an optional number: the value when present and non-zero, otherwise the default |
| JsRuntime.TrimStart | src/services/OCRService.ts:145 | the result is a suffix of the input that starts with a non-space character or is empty |
| JsRuntime.TrimEnd | src/services/OCRService.ts:145 | the result is a prefix of the input that ends with a non-space character or is empty |
| JsRuntime.Trim | src/services/OCRService.ts:145 | `trim()` never lengthens, and its result neither starts nor ends with white space |
| JsRuntime.TrimStartDropsSpace | src/services/OCRService.ts:145 | everything the leading trim removes is white space |
| JsRuntime.TrimEndDropsSpace | src/services/OCRService.ts:145 | everything the trailing trim removes is white space |
| JsRuntime.TrimIsSlice | src/services/OCRService.ts:145 | `trim()` is a contiguous slice of its input with only white space on either side |
| JsRuntime.TrimEmptyIffAllSpace | src/services/OCRService.ts:30 | a text trims to the falsy `''` exactly when it is all white space |
| JsRuntime.TrimIdempotent | services/OCRService.ts:58 | trimming an already trimmed text changes nothing |
| JsRuntime.IncludesFrom | src/services/OCRService.ts:81 | the scan from position k answers true exactly when the pattern occurs at some position ≥ k |
| JsRuntime.Includes | src/services/OCRService.ts:81-83 | `includes` is true exactly when the pattern occurs somewhere in the text |
| JsRuntime.MissingCharExcludes | src/services/OCRService.ts:81-83 | a text lacking some character of a pattern does not include that pattern |
| JsRuntime.Prefix | src/services/OCRService.ts:201 | `substring(0, n)` is a prefix of length min(n, length) |
| JsRuntime.DigitChar | src/services/OCRService.ts:69 | digit d prints as the character d places after '0' |
| JsRuntime.NatToString | src/services/OCRService.ts:69 | the printed status code is a non-empty string of decimal digits |
| JsRuntime.NatToStringValue | src/services/OCRService.ts:69 | reading the printed status code back as a decimal number gives the status itself |
| Tokenizer.WordRun | components/TextReaderPage.tsx:16 | the word run is the longest prefix without white space: it stops at the first white-space character or at the end |
| Tokenizer.SpaceRun | components/TextReaderPage.tsx:16 | the separator run is the longest all-white-space prefix: it stops at the first other character or at the end |
| Tokenizer.Split | components/TextReaderPage.tsx:16 | `split` always yields at least one token |
| Tokenizer.ConcatSplit | components/TextReaderPage.tsx:16 | joining the tokens gives back the text exactly, so highlighting shows all of it |
| Tokenizer.SplitEmpty | components/TextReaderPage.tsx:16 | the empty text splits into the single empty token |
| Tokenizer.SplitHead | components/TextReaderPage.tsx:16 | the first token is the leading word run |
| Tokenizer.AlternatingCons | components/TextReaderPage.tsx:16 | putting a word and a separator run in front of an alternating sequence keeps it alternating |
| Tokenizer.SplitAlternating | components/TextReaderPage.tsx:16 | tokens alternate between words (even positions, only the ends may be empty) and non-empty white-space runs (odd positions), so the count is odd |
| Tokenizer.WordRunUnique | components/TextReaderPage.tsx:16 | the word run is the only space-free prefix that ends at a space or at the end |
| Tokenizer.SpaceRunUnique | components/TextReaderPage.tsx:16 | the separator run is the only all-space prefix that ends at a non-space or at the end |
| Tokenizer.ConcatFirstChar | components/TextReaderPage.tsx:16 | the joined text starts with the first character of a non-empty first token |
| Tokenizer.EqualByFirstTwo | components/TextReaderPage.tsx:16 | token sequences agreeing on the first two tokens and on the rest are equal |
| Tokenizer.WordRunCons | components/TextReaderPage.tsx:16 | a word followed by white space gives that word as the leading run |
| Tokenizer.SpaceRunCons | components/TextReaderPage.tsx:16 | a white-space run followed by a non-space or the end gives that run as the separator |
| Tokenizer.SplitCons | components/TextReaderPage.tsx:16 | word + separator + tail splits into the word, the separator, then the split of the tail |
| Tokenizer.SplitNoSpace | components/TextReaderPage.tsx:16 | a text without white space is a single token |
| Tokenizer.AlternatingIsSplit | components/TextReaderPage.tsx:16 | any alternating token sequence that joins to a text is that text's split, so the split is uniquely determined by its shape |
| Tokenizer.AlternatingTail | components/TextReaderPage.tsx:16 | dropping the first word and separator keeps the alternating shape |
| TtsService.Clamp | services/TTSService.ts:94 | `Math.max(lo, Math.min(hi, x))` lies in [lo, hi], is x inside it and the nearer bound outside it |
| TtsService.Stop | services/TTSService.ts:55-66 | afterwards nothing plays; the engine is told to stop only if something was playing; the defaults are kept |
| TtsService.EffectiveOptions | services/TTSService.ts:19-44 | language en-US; a per-call rate or pitch wins unless absent or 0, else the stored default; a voice only when non-empty |
| TtsService.Speak | services/TTSService.ts:10-53 | stops first, then issues one speak command for the whole text with the effective options and marks playing; the stored defaults are unchanged |
| TtsService.Pause | services/TTSService.ts:68-78 | reaches the engine exactly when playing on iOS, and never changes the flag |
| TtsService.Resume | services/TTSService.ts:80-90 | reaches the engine exactly on iOS, whatever the flag, and never changes it |
| TtsService.OnEvent | services/TTSService.ts:23-38 | the engine callbacks set the flag: true on start only, false on done, stopped or error |
| TtsService.SetSpeechRate | services/TTSService.ts:92-95 | the stored rate is the argument clamped into [0.1, 1.0]; nothing else changes |
| TtsService.SetSpeechPitch | services/TTSService.ts:97-100 | the stored pitch is the argument clamped into [0.5, 2.0]; nothing else changes |
| TtsService.GetAvailableVoices | services/TTSService.ts:114-122 | the engine's list, or the empty list when the query throws |
| TtsService.IsSpeechAvailable | services/TTSService.ts:125-132 | the engine's answer, or false when the query throws |
| TtsService.GetSpeechRate | services/TTSService.ts:102-104 | the stored rate, inside [0.1, 1.0] on a valid driver |
| TtsService.GetSpeechPitch | services/TTSService.ts:106-108 | the stored pitch, inside [0.5, 2.0] on a valid driver |
| TtsService.GetIsPlaying | services/TTSService.ts:110-112 | the driver's playing flag |
| TtsService.InitialGetters | services/TTSService.ts:5-8 | a fresh driver reports rate 0.75, pitch 1.0, not playing, with defaults in range |
| TtsService.GettersSeeSetters | services/TTSService.ts:92-108 | each getter returns the clamped value its setter stored, and the other setting is untouched |
| TtsService.SettersIdempotent | services/TTSService.ts:92-100 | setting the same rate or pitch twice equals setting it once |
| TtsService.SetGetRoundTrip | services/TTSService.ts:92-108 | storing back what a getter returned changes nothing |
| TtsService.StopIdempotent | services/TTSService.ts:55-66 | a second stop neither changes state nor reaches the engine |
| TtsService.SpeakStopsFirst | services/TTSService.ts:17-48 | while playing, speak issues stop then speak; while idle, only speak |
| TtsService.PerCallOptionsDoNotPersist | services/TTSService.ts:21-22 | the stored rate and pitch after speak do not depend on the per-call options |
| TtsService.OperationsKeepValid | services/TTSService.ts:92-100 | every operation keeps the stored rate and pitch inside their ranges |
| TtsService.IsPlayingFollowsDriver | services/TTSService.ts:23-90 | the reported flag is set by speak and by the start callback, cleared by stop and the other callbacks, and untouched by pause and resume |
| TextReaderPage.Words | components/TextReaderPage.tsx:16 | the page always has at least one token to highlight |
| TextReaderPage.Mount | components/TextReaderPage.tsx:13-27 | a mounted page is idle, has no highlight and no timer, and has stopped the driver |
| TextReaderPage.Play | components/TextReaderPage.tsx:36-42 | play marks playing, highlights token 0, speaks the whole text and starts ticking from 0 |
| TextReaderPage.Pause | components/TextReaderPage.tsx:44-49 | pause marks paused, pauses the driver and clears the timer; the highlight stays |
| TextReaderPage.Resume | components/TextReaderPage.tsx:51-56 | resume marks playing, resumes the driver and restarts ticking from the current highlight |
| TextReaderPage.Stop | components/TextReaderPage.tsx:58-64 | stop makes the page idle with no highlight, stops the driver and clears the timer |
| TextReaderPage.Tick | components/TextReaderPage.tsx:66-82 | a tick changes only the highlight and the timer; without a running timer it does nothing |
| TextReaderPage.IdleEffect | components/TextReaderPage.tsx:92-97 | once idle, the highlight is dropped and the timer cleared; otherwise nothing changes |
| TextReaderPage.SetText | components/TextReaderPage.tsx:20-27 | a new text resets the page to idle and stops the driver; the same text changes nothing |
| TextReaderPage.Unmount | components/TextReaderPage.tsx:29-34 | unmounting leaves the driver stopped |
| TextReaderPage.SpeechCallback | services/TTSService.ts:23-38 | an engine callback updates only the driver, not the page's own flags |
| TextReaderPage.Offered | components/TextReaderPage.tsx:119-130 | Play shows exactly when idle, Pause when playing, Resume when paused, Stop when either |
| TextReaderPage.Press | components/TextReaderPage.tsx:119-130 | a button can be pressed exactly when it is rendered |
| TextReaderPage.MountInv | components/TextReaderPage.tsx:13-27 | a freshly mounted page satisfies the page invariant |
| TextReaderPage.HandlersExclusive | components/TextReaderPage.tsx:36-64 | no handler leaves the page both playing and paused |
| TextReaderPage.PlayIgnoresPausedPosition | components/TextReaderPage.tsx:36-42 | play does not depend on an earlier paused position and ends with a speak command for the whole text |
| TextReaderPage.PauseThenResume | components/TextReaderPage.tsx:44-56 | pause then resume keeps the highlight, restarts ticking there, and ends up playing |
| TextReaderPage.NonIosPauseResumeLeavesDriver | services/TTSService.ts:68-90 | off iOS, pause and resume never reach the engine |
| TextReaderPage.IdleEffectNoOp | components/TextReaderPage.tsx:92-97 | on a page satisfying the invariant the idle effect changes nothing |
| TextReaderPage.TickAdvancesOrStops | components/TextReaderPage.tsx:69-81 | a tick moves the highlight one token on, or at the last token keeps it and clears the timer |
| TextReaderPage.TickInv | components/TextReaderPage.tsx:66-82 | a tick preserves the page invariant, so the highlight stays a valid token index |
| TextReaderPage.PressInv | components/TextReaderPage.tsx:36-64 | every button handler followed by the idle effect preserves the page invariant |
| TextReaderPage.PressTransitions | components/TextReaderPage.tsx:119-130 | the only transitions are Idle→Playing, Playing→Paused, Paused→Playing and Playing/Paused→Idle, each by its own button |
| TextReaderPage.StepInv | components/TextReaderPage.tsx:20-97 | every event (button, tick, engine callback, new text) preserves the page invariant |
| TextReaderPage.RunInv | components/TextReaderPage.tsx:20-97 | any sequence of events preserves the page invariant |
| TextReaderPage.TicksFromRunning | components/TextReaderPage.tsx:66-82 | k ticks from highlight i reach token i + k, stopping at the last token |
| TextReaderPage.TicksWhenOff | components/TextReaderPage.tsx:84-89 | without a running timer, ticks change nothing |
| TextReaderPage.PlayThenTicks | components/TextReaderPage.tsx:36-82 | after play and k ticks the highlight is on token min(k, n − 1) |
| OcrSpace.FirstResult | src/services/OCRService.ts:136-140 | the first parsed result exists exactly when the list is present and non-empty |
| OcrSpace.Lookup | services/OCRService.ts:32-40 | a value is found exactly when some field has that name, and it is the value of the first such field |
| OcrClient.CreateFormData | src/services/OCRService.ts:116-129 | exactly the eight fields base64Image, language, apikey, OCREngine, detectOrientation, scale, isTable, isOverlayRequired in that order, with the JPEG data URL, "eng", the service's key, "2", "true", "true", "false", "false" |
| OcrClient.ParseOcrResponse | src/services/OCRService.ts:131-149 | a server error gives its message or "OCR processing failed on server"; a missing first result gives "Invalid OCR response format"; otherwise the trimmed text, confidence 0.8 with an overlay and 0.6 without, and the given time |
| OcrClient.ParsedTextTrimmed | src/services/OCRService.ts:30-145 | a parsed text is already trimmed, so the loop treats a parsed attempt as readable exactly when its text is non-empty |
| OcrClient.Classify | src/services/OCRService.ts:80-90 | the four-way mapping of a caught error: network/fetch, then HTTP error, then a "OCR processing failed: " prefix, and a non-Error value as unexpected |
| OcrClient.HttpErrorMessage | src/services/OCRService.ts:69 | the non-ok error starts with "HTTP error" and ends with the status text |
| OcrClient.PrepareFailureNotRecognised | src/services/OCRService.ts:81-86 | the preparation error matches none of the network, fetch or HTTP patterns |
| OcrClient.PerformOcr | src/services/OCRService.ts:49-92 | success exactly when every step succeeds, with the parsed result; otherwise the caught error classified by its message: a rejected fetch, the "HTTP error! status: …" error, an unreadable body and a parse error each go through Classify, and a preparation failure becomes "OCR processing failed: Failed to prepare image…"; every failure is one of the four classified shapes |
| OcrClient.Judge | src/services/OCRService.ts:28-36 | an attempt counts as a success exactly when its trimmed text is non-empty, and as a throw exactly when it threw |
| OcrClient.MessageOf | src/services/OCRService.ts:37 | the last error keeps an Error's own message and turns any other thrown value into "Unknown OCR error" |
| OcrClient.Returned | src/services/OCRService.ts:32-46 | what the caller sees: the found text, the "No text detected" string, or the rethrown error's message; only a rethrow is an error |
| OcrClient.Judged | src/services/OCRService.ts:24-44 | one judgement per attempt, each the loop's judgement of that attempt |
| OcrClient.Attempts | src/services/OCRService.ts:24-46 | the loop makes between one and three attempts and never rethrows without a recorded error |
| OcrClient.AttemptsDelays | src/services/OCRService.ts:40-42 | the loop sleeps 1000 × k ms after each thrown attempt k before the last one made, as an independent count predicts |
| OcrClient.ExtractText | src/services/OCRService.ts:21-47 | one to three attempts; the sleeps are exactly 1000 × k after each thrown attempt k before the last; the "after all retry attempts" fallback is unreachable |
| OcrClient.LoopOutcome | src/services/OCRService.ts:24-46 | the first successful attempt wins; with none, the third attempt decides between "no text" and rethrowing its error |
| OcrClient.ExtractTextOutcome | src/services/OCRService.ts:21-47 | returns the text of the first readable attempt; if none of the three is readable, blank text on the third gives the "No text detected" answer and a throw there rethrows that attempt's error |
| OcrClient.ReturnedMessages | src/services/OCRService.ts:33-46 | a thrown run carries one of the four classified messages; blank text on the last attempt returns the fixed "No text detected" string |
| OcrClient.HttpFailureClassified | src/services/OCRService.ts:68-84 | a non-ok response is reported as a network error or as the service being unavailable, never as a processing failure |
| OcrClient.Mask | src/services/OCRService.ts:200-202 | the masked key is at most the first eight characters of the key followed by "..." |
| OcrClient.GetApiKey | src/services/OCRService.ts:200-202 | the shown key is a prefix of the real key followed by "...", and eleven characters long for a key of at least eight |
| OcrClient.GetServiceInfo | src/services/OCRService.ts:185-192 | the service info shows the same masked key as `getApiKey` |
| OcrClient.UpdateApiKey | src/services/OCRService.ts:195-197 | the service holds the new key |
| OcrClient.MaskRevealsOnlyPrefix | src/services/OCRService.ts:190 | two keys mask alike exactly when their first eight characters agree |
| OcrClient.UpdateApiKeyTakesEffect | src/services/OCRService.ts:195-202 | after an update, both masked getters and the next request's `apikey` field use the new key |
| OcrClient.InitialMask | src/services/OCRService.ts:16 | the built-in key is shown as "K8769656..." |
| OcrClient.ValidationForm | src/services/OCRService.ts:167-169 | exactly two fields: base64Image holding the one-pixel PNG data URL, then apikey holding the service's key |
| OcrClient.ValidateApiKey | src/services/OCRService.ts:162-182 | the key is valid exactly when the body reads and reports no processing error |
| OcrClient.QuickFormData | src/services/OCRService.ts:212-218 | exactly the six fields base64Image, language, apikey, OCREngine, detectOrientation, scale, with the JPEG data URL and the built-in key |
| OcrClient.QuickFormIsServiceFormPrefix | src/services/OCRService.ts:212-218 | the one-shot form is the service's form for the built-in key without its last two fields |
| OcrClient.ExtractTextFromImage | src/services/OCRService.ts:207-231 | never fails: `''` on any failure or missing result, otherwise the first result's untrimmed text |
| OcrClient.QuickTextAgreesWithParser | src/services/OCRService.ts:207-231 | where the parser accepts a body, the one-shot text trims to the parser's text; the one-shot call ignores the processing-error flag |
| OcrDemo.LoadApiKey | services/OCRService.ts:11-20 | a stored non-empty key replaces the current one; a missing, empty or unreadable one keeps it |
| OcrDemo.Request | services/OCRService.ts:32-40 | exactly the fields apikey, language, isOverlayRequired, file in that order: the key, "eng", "false", and the image as a JPEG file named image.jpg |
| OcrDemo.SampleText | services/OCRService.ts:63-72 | the fixed explanation up to "Note: ", then the note unchanged, then the fixed closing text |
| OcrDemo.NoteOf | services/OCRService.ts:63-72 | a note read back out of a text rebuilds that exact text |
| OcrDemo.NoteFor | services/OCRService.ts:65 | the note of a caught Error is its message; any other thrown value gives "OCR service unavailable" |
| OcrDemo.ExtractText | services/OCRService.ts:22-74 | the key is reloaded first; a request is sent exactly when a key is loaded, and carries that key and the image |
| OcrDemo.SampleNoteRoundTrip | services/OCRService.ts:63-72 | the note is recovered exactly from the sample text |
| OcrDemo.MissingKeyReported | services/OCRService.ts:27-29 | without a key nothing is sent and the sample text carries "OCR API key not configured…" |
| OcrDemo.FailureReported | services/OCRService.ts:59-65 | a thrown error comes back as the sample text carrying its message, or "OCR service unavailable" for a non-Error |
| OcrDemo.ServerErrorReported | services/OCRService.ts:52-54 | a server error comes back as the sample text carrying its message, or "OCR processing failed" |
| OcrDemo.SuccessTrimmed | services/OCRService.ts:56-58 | on success, the first result's text trimmed (or `''`), and trimming it again changes nothing |
| OcrDemo.LoadApiKeyKeepsPrevious | services/OCRService.ts:11-20 | loading twice equals loading once, and a loaded key is never erased |
| OcrDemo.RequestFields | services/OCRService.ts:32-40 | the request carries the loaded key under `apikey` and the image under `file` |
| PdfDocuments.FireIfPresent | src/components/documents/PDFListSection.tsx:113 | an optional callback fires exactly when the parent passed it, and only for the given document |
| PdfDocuments.ShowOptions | src/components/documents/PDFListSection.tsx:85-108 | on iOS the modal is untouched; elsewhere it opens holding the document |
| PdfDocuments.Dismiss | src/components/documents/PDFListSection.tsx:204-205 | dismissing hides the modal and keeps the held document |
| PdfDocuments.FormatFileSize | src/components/documents/PDFListSection.tsx:66 | zero bytes shows as "0 Bytes" |
| PdfListSection.GetSortLabel | src/components/documents/PDFListSection.tsx:139-144 | every ordering has a non-empty label |
| PdfListSection.Header | src/components/documents/PDFListSection.tsx:150 | the header is never empty, and shows the label whenever the label is non-empty |
| PdfListSection.Render | src/components/documents/PDFListSection.tsx:53-63 | the empty-state message exactly when the list is missing or empty; otherwise the header over the documents |
| PdfListSection.HandleModalAction | src/components/documents/PDFListSection.tsx:110-122 | without a held document nothing happens; otherwise Open fires `onSelect`, Share fires `onShare` exactly when passed, Delete opens the confirmation exactly when `onDelete` is passed, and the modal closes and forgets the document |
| PdfListSection.SheetSelect | src/components/documents/PDFListSection.tsx:93-102 | index 1 fires `onSelect`, index 2 fires `onShare` exactly when passed, index 3 opens the confirmation exactly when `onDelete` is passed, any other index does nothing |
| PdfListSection.AnswerConfirmation | src/components/documents/PDFListSection.tsx:97-100 | only the "Delete" answer fires `onDelete`, for that document |
| PdfListSection.ChooseSort | src/components/documents/PDFListSection.tsx:229-244 | a sort entry forwards at most its own request and always closes the sort menu |
| PdfListSection.SortLabelInjective | src/components/documents/PDFListSection.tsx:139-144 | the six orderings have six different labels |
| PdfListSection.InvertChangesLabel | src/components/documents/PDFListSection.tsx:139-144 | inverting the order always changes the label, and inverting twice restores the order |
| PdfListSection.DefaultHeader | src/components/documents/PDFListSection.tsx:45-46 | by default the header reads "Recently Added", and the single-space fallback never shows |
| PdfListSection.SheetMatchesModal | src/components/documents/PDFListSection.tsx:85-122 | the iOS sheet and the modal fire the same effects entry by entry; Cancel fires nothing |
| PdfListSection.DeleteOnlyAfterConfirmation | src/components/documents/PDFListSection.tsx:96-118 | no menu entry fires `onDelete` itself; Delete only opens the confirmation |
| PdfListSection.ModalActionFiresOwnCallback | src/components/documents/PDFListSection.tsx:110-122 | every effect of a modal action concerns the held document and the action's own callback |
| PdfListSection.ModalActionFires | src/components/documents/PDFListSection.tsx:110-119 | with a held document an entry does something exactly when it can: Open always, Share when `onShare` is passed, Delete when `onDelete` is passed |
| PdfListSection.ShowThenAct | src/components/documents/PDFListSection.tsx:104-122 | opening the modal and choosing an entry does what the iOS sheet entry does, then closes the modal |
| PdfListSection.ChooseSortForwards | src/components/documents/PDFListSection.tsx:229-244 | a key is forwarded exactly when `onSort` exists, an inversion exactly when `onInvertSort` does |
| PdfListLegacy.Render | components/PDFListSection.tsx:28 | nothing is rendered exactly when the list is empty; otherwise "Recent files" over the documents |
| PdfListLegacy.HandleModalAction | components/PDFListSection.tsx:64-72 | without a held document nothing happens; otherwise at most one effect and the modal closes and forgets it |
| PdfListLegacy.SheetSelect | components/PDFListSection.tsx:53-58 | at most one effect; indices outside 1–4 do nothing |
| PdfListLegacy.ModalActionFiresOwnCallback | components/PDFListSection.tsx:64-72 | an entry fires exactly its own callback on the held document: always for Open, for the others exactly when passed |
| PdfListLegacy.DeleteIsImmediate | components/PDFListSection.tsx:57-69 | Delete fires `onDelete` at once, without confirmation |
| PdfListLegacy.SheetMatchesModal | components/PDFListSection.tsx:47-72 | the iOS sheet and the modal agree entry by entry; Cancel fires nothing |
| PdfListLegacy.ShowThenAct | components/PDFListSection.tsx:59-72 | opening the modal and choosing an entry does what the sheet entry does, then closes the modal |
| PdfListLegacy.SecondActionIgnored | components/PDFListSection.tsx:64-72 | a second action on the closed modal does nothing: one callback per opening |
| ExpoConfig.Get | app.config.js:4 | reading a key yields its value exactly when present |
| ExpoConfig.Spread | app.config.js:4 | spreading an object copies its fields; spreading `undefined` copies nothing |
| ExpoConfig.Merge | app.config.js:1-13 | the result has the incoming keys plus `android` and `extra`, and nothing else |
| ExpoConfig.Android | app.config.js:3-6 | the new `android` has the old keys plus `package`, which is the app's package |
| ExpoConfig.Extra | app.config.js:7-12 | the new `extra` has the old keys plus `eas`, which is exactly `{ projectId }` |
| ExpoConfig.OtherKeysUnchanged | app.config.js:2 | every other top-level key keeps its value |
| ExpoConfig.AndroidPackagePinned | app.config.js:3-6 | `android.package` is always the app's package; every other `android` key is kept |
| ExpoConfig.ExtraEasReplaced | app.config.js:7-12 | `extra.eas` becomes exactly `{ projectId }`; every other `extra` key is kept |
| ExpoConfig.MissingSectionsStartEmpty | app.config.js:3-12 | a configuration without the sections gets them holding only the pinned entries |
| ExpoConfig.MergeIdempotent | app.config.js:1-13 | applying the configuration function to its own output changes nothing |

## Left out

- Rendering, styles, icons, scroll views and accessibility labels of every component: only state, handlers and what they fire are modelled.
- The 350 ms word delay and real time: timer ticks are abstract events, and back-off sleeps are recorded as their lengths.
- `fetch`, `response.json()`, `ImageManipulator.manipulateAsync`, `AsyncStorage.getItem`, `Date.now()` and the speech engine's queries are not modelled: their results, or what they threw, are inputs.
- Console logging is not modelled, as it has no effect on results.
- Floating point is not modelled: rate, pitch and confidence are exact reals, and NaN inputs to the rate and pitch setters are not modelled.
- PdfDocuments.FormatFileSize: only the zero case is stated; the logarithm, `toFixed(2)` and unit lookup for other sizes are floating-point display code.
- `formatDate` is not modelled: it depends on the current date and the device locale.
- ExpoConfig.Spread: a truthy non-object `android` or `extra` (a string or an array) is treated as contributing no keys, though JavaScript would spread its index keys; such a configuration is not a valid Expo configuration. Key order is not modelled either, since objects are maps.
- `currentUtteranceId` in the speech driver is not modelled: it is written but never read.
- The `try`/`catch` around the speech engine's speak, stop, pause and resume is not modelled: those calls are taken not to throw, and only the two queries model a failure.
- React state batching is not modelled: each handler's state updates are applied in order, and the interval timer is the page's own `timer` field.
- `extractTextAlternative` is not modelled: it returns a fixed string after a two-second timer and has no logic of its own.
- `extractTextWithDetails` is not modelled separately: it returns `performOCR`'s result as is, which is OcrClient.PerformOcr.
- `ErrorMessage` is modelled as an optional string: the web service may send an array, and `new Error` of an array is not modelled.
- The final `return ''` of `getSortLabel` is unreachable, because its argument is typed as one of the three keys; the header's `|| ' '` fallback is modelled.
- `handleSharePDF` is not modelled: it is declared in the sorted list but never called, and its effect is the sharing dialog.
- PdfListLegacy.Render: an undefined `pdfs` prop would throw in the legacy list, and is not modelled; the list is taken as given.
- Network failures in React Native arrive with the platform's own message text, which is not part of this model; OcrClient.Classify works on whatever message is given.
- JsRuntime.Prefix: counts characters as Unicode code points, while `substring(0, n)` counts UTF-16 code units, so a key with characters outside the Basic Multilingual Plane is cut differently; OCR.space keys are ASCII.
- OcrClient.Mask: keeps eight code points rather than eight UTF-16 code units, for the same reason as JsRuntime.Prefix.
- A missing `base64` on the prepared image is not modelled: preparation either yields the encoded image or fails.
- A `null` JSON body is not modelled: `response.json()` either yields a payload or throws.
