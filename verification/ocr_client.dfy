/**
  The retrying OCR client: `extractText` runs up to three attempts with a
  linear back-off after thrown attempts, each attempt (`performOCR`) prepares
  the image, posts a form, validates and parses the JSON answer and turns any
  failure into one of four user-facing messages. Image preparation, `fetch`,
  `response.json()`, the clock and the back-off sleeps are not modelled: their
  outcomes are inputs and each sleep is recorded as its length in ms.
 */
module OcrClient {
  import opened JsRuntime
  import opened OcrSpace

  const DefaultApiKey: string := "K87696567288957"
  const MaxRetries: nat := 3
  const RetryDelay: nat := 1000

  const NoTextMessage: string := "No text detected in the image. Please try with a clearer image containing readable text."
  const NetworkMessage: string := "Network error. Please check your internet connection and try again."
  const UnavailableMessage: string := "OCR service is temporarily unavailable. Please try again later."
  const FailedPrefix: string := "OCR processing failed: "
  const UnexpectedMessage: string := "An unexpected error occurred during OCR processing."
  const PrepareFailedMessage: string := "Failed to prepare image for OCR processing"
  const ServerFailedMessage: string := "OCR processing failed on server"
  const InvalidFormatMessage: string := "Invalid OCR response format"
  const UnknownErrorMessage: string := "Unknown OCR error"
  const AfterRetriesMessage: string := "OCR processing failed after all retry attempts"
  const MaskSuffix: string := "..."

  /** The service object's mutable part: its API key. */
  datatype Service = Service(apiKey: string)

  const Initial: Service := Service(DefaultApiKey)

  /** What a successful attempt yields; `processingTime` is a clock reading and is an input. */
  datatype OcrResult = OcrResult(text: string, confidence: real, processingTime: int)

  datatype ServiceInfo = ServiceInfo(provider: string, engine: string, language: string, apiKey: string)

  /** `createFormData`: the eight fields of the request, in order. */
  function CreateFormData(s: Service, base64Image: string): (form: seq<Field>)
    ensures FieldNames(form) ==
      ["base64Image", "language", "apikey", "OCREngine", "detectOrientation", "scale", "isTable", "isOverlayRequired"]
    ensures form[0].value == Text("data:image/jpeg;base64," + base64Image)
    ensures form[1].value == Text("eng") && form[2].value == Text(s.apiKey) && form[3].value == Text("2")
    ensures form[4].value == Text("true") && form[5].value == Text("true")
    ensures form[6].value == Text("false") && form[7].value == Text("false")
  {
    [ Field("base64Image", Text("data:image/jpeg;base64," + base64Image)),
      Field("language", Text("eng")),
      Field("apikey", Text(s.apiKey)),
      Field("OCREngine", Text("2")),
      Field("detectOrientation", Text("true")),
      Field("scale", Text("true")),
      Field("isTable", Text("false")),
      Field("isOverlayRequired", Text("false")) ]
  }

  /**
    `parseOCRResponse`: a server-side error or a missing first result is an
    error; otherwise the trimmed text of the first result with an estimated
    confidence of 0.8 when it carries an overlay and 0.6 when not.
   */
  function ParseOcrResponse(p: Payload, processingTime: int): (r: Result<OcrResult, string>)
    ensures p.isErroredOnProcessing ==> r == Err(StringOr(p.errorMessage, ServerFailedMessage))
    ensures !p.isErroredOnProcessing && FirstResult(p).None? ==> r == Err(InvalidFormatMessage)
    ensures r.Ok? <==> !p.isErroredOnProcessing && FirstResult(p).Some?
    ensures r.Ok? ==> var first := FirstResult(p).value;
      && r.value.text == Trim(StringOr(first.parsedText, ""))
      && r.value.confidence == (if first.hasOverlay then 0.8 else 0.6)
      && r.value.processingTime == processingTime
  {
    if p.isErroredOnProcessing then Err(StringOr(p.errorMessage, ServerFailedMessage))
    else match FirstResult(p)
      case None => Err(InvalidFormatMessage)
      case Some(first) =>
        Ok(OcrResult(Trim(StringOr(first.parsedText, "")), if first.hasOverlay then 0.8 else 0.6, processingTime))
  }

  /** The message of the error `performOCR` rethrows for what it caught, checked in this order. */
  function Classify(e: Thrown): (m: string)
    ensures e.OtherValue? ==> m == UnexpectedMessage
    ensures e.ErrorObject? && (Includes(e.message, "network") || Includes(e.message, "fetch")) ==> m == NetworkMessage
    ensures e.ErrorObject? && !Includes(e.message, "network") && !Includes(e.message, "fetch") ==>
      m == (if Includes(e.message, "HTTP error") then UnavailableMessage else FailedPrefix + e.message)
  {
    match e
    case OtherValue => UnexpectedMessage
    case ErrorObject(msg) =>
      if Includes(msg, "network") || Includes(msg, "fetch") then NetworkMessage
      else if Includes(msg, "HTTP error") then UnavailableMessage
      else FailedPrefix + msg
  }

  /** The four shapes a message from `performOCR` can take. */
  predicate Classified(m: string) {
    m == NetworkMessage || m == UnavailableMessage || m == UnexpectedMessage || FailedPrefix <= m
  }

  /** The preparation error has no `w`, no `h` and no `H`. */
  lemma PrepareMessageLacksW() ensures 'w' !in PrepareFailedMessage { }
  lemma PrepareMessageLacksLowerH() ensures 'h' !in PrepareFailedMessage { }
  lemma PrepareMessageLacksUpperH() ensures 'H' !in PrepareFailedMessage { }

  /** The preparation error mentions neither the network, `fetch`, nor an HTTP error. */
  lemma PrepareFailureNotRecognised()
    ensures !Includes(PrepareFailedMessage, "network")
    ensures !Includes(PrepareFailedMessage, "fetch")
    ensures !Includes(PrepareFailedMessage, "HTTP error")
  {
    PrepareMessageLacksW();
    MissingCharExcludes(PrepareFailedMessage, "network", 'w');
    PrepareMessageLacksLowerH();
    MissingCharExcludes(PrepareFailedMessage, "fetch", 'h');
    PrepareMessageLacksUpperH();
    MissingCharExcludes(PrepareFailedMessage, "HTTP error", 'H');
  }

  /** The error `performOCR` throws for a non-ok response: it starts with "HTTP error", followed by the status line. */
  function HttpErrorMessage(status: nat, statusText: string): (m: string)
    ensures OccursAt(m, "HTTP error", 0)
    ensures |statusText| <= |m| && m[|m| - |statusText|..] == statusText
  {
    "HTTP error! status: " + NatToString(status) + " - " + statusText
  }

  /**
    `performOCR`: prepare the image (its failure becomes the preparation error),
    post the form, reject a non-ok response, read and parse the body; anything
    thrown on the way is reported through Classify.
   */
  function PerformOcr(s: Service, prepared: Result<string, Thrown>, response: Result<Response, Thrown>, processingTime: int)
    : (r: Result<OcrResult, string>)
    ensures r.Err? ==> Classified(r.error)
    ensures prepared.Err? ==> r == Err(FailedPrefix + PrepareFailedMessage)
    ensures r.Ok? <==>
      && prepared.Ok? && response.Ok? && response.value.ok && response.value.body.Ok?
      && ParseOcrResponse(response.value.body.value, processingTime).Ok?
    ensures r.Ok? ==> r == ParseOcrResponse(response.value.body.value, processingTime)
    ensures prepared.Ok? && response.Err? ==> r == Err(Classify(response.error))
    ensures prepared.Ok? && response.Ok? && !response.value.ok ==>
      r == Err(Classify(ErrorObject(HttpErrorMessage(response.value.status, response.value.statusText))))
    ensures prepared.Ok? && response.Ok? && response.value.ok && response.value.body.Err? ==>
      r == Err(Classify(response.value.body.error))
    ensures prepared.Ok? && response.Ok? && response.value.ok && response.value.body.Ok? ==>
      var parsed := ParseOcrResponse(response.value.body.value, processingTime);
      parsed.Err? ==> r == Err(Classify(ErrorObject(parsed.error)))
  {
    var caught: Result<OcrResult, Thrown> :=
      match prepared
      case Err(_) => Err(ErrorObject(PrepareFailedMessage))
      case Ok(base64) =>
        var _ := CreateFormData(s, base64);
        match response
        case Err(t) => Err(t)
        case Ok(resp) =>
          if !resp.ok then Err(ErrorObject(HttpErrorMessage(resp.status, resp.statusText)))
          else match resp.body
            case Err(t) => Err(t)
            case Ok(payload) =>
              match ParseOcrResponse(payload, processingTime)
              case Ok(res) => Ok(res)
              case Err(msg) => Err(ErrorObject(msg));
    match caught
    case Ok(res) => Ok(res)
    case Err(t) =>
      PrepareFailureNotRecognised();
      Err(Classify(t))
  }

  /** How a run of the loop ended: with text, with the "No text detected" answer, or by rethrowing `lastError`. */
  datatype Outcome = Found(text: string) | NoTextDetected | Rethrown(lastError: Option<Thrown>)

  /** What one run of `extractText` did: how it ended, the back-off sleeps (ms) in order, the attempts made. */
  datatype Extraction = Extraction(outcome: Outcome, delays: seq<nat>, attempts: nat)

  /** The message of `lastError`: an Error keeps its own, anything else becomes "Unknown OCR error". */
  function MessageOf(t: Thrown): (m: string)
    ensures t.ErrorObject? ==> m == t.message
    ensures t.OtherValue? ==> m == UnknownErrorMessage
  {
    match t
    case ErrorObject(m) => m
    case OtherValue => UnknownErrorMessage
  }

  /** What the caller of `extractText` sees: the returned string, or the message of the thrown error. */
  function Returned(o: Outcome): (seen: Result<string, string>)
    ensures seen.Ok? <==> !o.Rethrown?
    ensures o.Found? ==> seen == Ok(o.text)
    ensures o.NoTextDetected? ==> seen == Ok(NoTextMessage)
    ensures o.Rethrown? && o.lastError.Some? ==> seen == Err(MessageOf(o.lastError.value))
  {
    match o
    case Found(text) => Ok(text)
    case NoTextDetected => Ok(NoTextMessage)
    case Rethrown(Some(t)) => Err(MessageOf(t))
    case Rethrown(None) => Err(AfterRetriesMessage)
  }

  /** An attempt that produced text with something other than white space in it. */
  predicate Readable(o: Result<OcrResult, Thrown>) {
    o.Ok? && Trim(o.value.text) != ""
  }

  /** How the loop reads one attempt: text worth returning, blank text, or a throw. */
  datatype Attempt = Succeeded(text: string) | BlankText | Threw(error: Thrown)

  /** The loop's test `result.text.trim()` applied to what one attempt of `performOCR` produced. */
  function Judge(o: Result<OcrResult, Thrown>): (a: Attempt)
    ensures a.Succeeded? <==> Readable(o)
    ensures a.Succeeded? ==> a.text == o.value.text
    ensures a.Threw? <==> o.Err?
    ensures a.Threw? ==> a.error == o.error
  {
    match o
    case Ok(res) => if Trim(res.text) != "" then Succeeded(res.text) else BlankText
    case Err(t) => Threw(t)
  }

  function Judged(outcomes: seq<Result<OcrResult, Thrown>>): (judged: seq<Attempt>)
    ensures |judged| == |outcomes|
    ensures forall i :: 0 <= i < |outcomes| ==> judged[i] == Judge(outcomes[i])
  {
    seq(|outcomes|, i requires 0 <= i < |outcomes| => Judge(outcomes[i]))
  }

  /**
    The retry loop from attempt `attempt` on; `judged[k - 1]` is how attempt
    `k` went, `lastError` the error of the latest thrown attempt.
   */
  function Attempts(judged: seq<Attempt>, attempt: nat, lastError: Option<Thrown>, delays: seq<nat>)
    : (r: Extraction)
    requires 1 <= attempt <= MaxRetries + 1 && |judged| >= MaxRetries
    requires attempt > MaxRetries ==> lastError.Some?
    ensures attempt <= MaxRetries ==> attempt <= r.attempts
    ensures 1 <= r.attempts <= MaxRetries
    ensures r.outcome.Rethrown? ==> r.outcome.lastError.Some?
    decreases MaxRetries + 1 - attempt
  {
    if attempt > MaxRetries then Extraction(Rethrown(lastError), delays, MaxRetries)
    else
      match judged[attempt - 1]
      case Succeeded(text) => Extraction(Found(text), delays, attempt)
      case BlankText =>
        if attempt == MaxRetries then Extraction(NoTextDetected, delays, attempt)
        else Attempts(judged, attempt + 1, lastError, delays)
      case Threw(t) =>
        var slept := if attempt < MaxRetries then delays + [RetryDelay * attempt] else delays;
        Attempts(judged, attempt + 1, Some(t), slept)
  }

  /** The sleeps an independent reading of the loop predicts before attempt `n + 1`: `1000 * k` after each thrown attempt `k <= n`. */
  function DelaysBefore(judged: seq<Attempt>, n: nat): seq<nat>
    requires n <= |judged|
  {
    if n == 0 then [] else DelaysBefore(judged, n - 1) + (if judged[n - 1].Threw? then [RetryDelay * n] else [])
  }

  /**
    Each sleep follows the reference reading: `1000 * k` after each thrown
    attempt `k` before the last attempt made, and none after attempt 3. The
    requirement says the sleeps so far already follow it.
   */
  lemma {:induction false} AttemptsDelays(judged: seq<Attempt>, attempt: nat, lastError: Option<Thrown>, delays: seq<nat>)
    requires 1 <= attempt <= MaxRetries + 1 && |judged| >= MaxRetries
    requires attempt > MaxRetries ==> lastError.Some?
    requires delays == DelaysBefore(judged, if attempt > MaxRetries then MaxRetries - 1 else attempt - 1)
    ensures var r := Attempts(judged, attempt, lastError, delays);
      r.delays == DelaysBefore(judged, r.attempts - 1)
    decreases MaxRetries + 1 - attempt
  {
    if attempt <= MaxRetries {
      var r := Attempts(judged, attempt, lastError, delays);
      var a := judged[attempt - 1];
      assert DelaysBefore(judged, attempt - 1) == delays;
      if a.Succeeded? {
        assert r.attempts == attempt && r.delays == delays;
      } else if a.BlankText? {
        if attempt == MaxRetries {
          assert r.attempts == attempt && r.delays == delays;
        } else {
          assert DelaysBefore(judged, attempt) == delays;
          AttemptsDelays(judged, attempt + 1, lastError, delays);
          assert r == Attempts(judged, attempt + 1, lastError, delays);
        }
      } else {
        if attempt == MaxRetries {
          AttemptsDelays(judged, attempt + 1, Some(a.error), delays);
          assert r == Attempts(judged, attempt + 1, Some(a.error), delays);
        } else {
          var slept := delays + [RetryDelay * attempt];
          assert DelaysBefore(judged, attempt) == slept;
          AttemptsDelays(judged, attempt + 1, Some(a.error), slept);
          assert r == Attempts(judged, attempt + 1, Some(a.error), slept);
        }
      }
    }
  }

  /**
    `extractText`: the retry loop from the first attempt. It makes one to
    three attempts, sleeps `1000 * k` ms after each thrown attempt `k` before
    the last attempt it made, and never reaches the generic fallback error.
   */
  function ExtractText(outcomes: seq<Result<OcrResult, Thrown>>): (r: Extraction)
    requires |outcomes| >= MaxRetries
    ensures 1 <= r.attempts <= MaxRetries
    ensures r.delays == DelaysBefore(Judged(outcomes), r.attempts - 1)
    ensures r.outcome.Rethrown? ==> r.outcome.lastError.Some?
  {
    var judged := Judged(outcomes);
    AttemptsDelays(judged, 1, None, []);
    Attempts(judged, 1, None, [])
  }

  /** The loop over judged attempts: the first success wins; with none, the third attempt decides. */
  lemma LoopOutcome(judged: seq<Attempt>)
    requires |judged| >= MaxRetries
    ensures var r := Attempts(judged, 1, None, []);
      judged[0].Succeeded? ==> r.outcome == Found(judged[0].text) && r.attempts == 1
    ensures var r := Attempts(judged, 1, None, []);
      !judged[0].Succeeded? && judged[1].Succeeded? ==> r.outcome == Found(judged[1].text) && r.attempts == 2
    ensures var r := Attempts(judged, 1, None, []);
      !judged[0].Succeeded? && !judged[1].Succeeded? ==>
        && r.attempts == 3
        && r.outcome == match judged[2]
          case Succeeded(text) => Found(text)
          case BlankText => NoTextDetected
          case Threw(t) => Rethrown(Some(t))
  {
    var a0, a1 := judged[0], judged[1];
    var e1 := if a0.Threw? then Some(a0.error) else None;
    var d1 := if a0.Threw? then [RetryDelay] else [];
    if !a0.Succeeded? {
      var r := Attempts(judged, 2, e1, d1);
      assert Attempts(judged, 1, None, []) == r;
      if !a1.Succeeded? {
        var e2 := if a1.Threw? then Some(a1.error) else e1;
        var d2 := d1 + if a1.Threw? then [RetryDelay * 2] else [];
        assert r == Attempts(judged, 3, e2, d2);
      }
    }
  }

  /**
    `extractText` returns the text of the first readable attempt among the
    three; with none, attempt 3 decides: blank text gives the "No text
    detected" message, a throw rethrows attempt 3's own error.
   */
  lemma ExtractTextOutcome(outcomes: seq<Result<OcrResult, Thrown>>)
    requires |outcomes| >= MaxRetries
    ensures var r := ExtractText(outcomes);
      Readable(outcomes[0]) ==> r.outcome == Found(outcomes[0].value.text) && r.attempts == 1
    ensures var r := ExtractText(outcomes);
      !Readable(outcomes[0]) && Readable(outcomes[1]) ==> r.outcome == Found(outcomes[1].value.text) && r.attempts == 2
    ensures var r := ExtractText(outcomes);
      !Readable(outcomes[0]) && !Readable(outcomes[1]) && Readable(outcomes[2]) ==>
        r.outcome == Found(outcomes[2].value.text) && r.attempts == 3
    ensures var r := ExtractText(outcomes);
      !Readable(outcomes[0]) && !Readable(outcomes[1]) && !Readable(outcomes[2]) ==>
        && r.attempts == 3
        && (outcomes[2].Ok? ==> r.outcome == NoTextDetected)
        && (outcomes[2].Err? ==> r.outcome == Rethrown(Some(outcomes[2].error)))
  {
    var j := Judged(outcomes);
    assert j[0] == Judge(outcomes[0]) && j[1] == Judge(outcomes[1]) && j[2] == Judge(outcomes[2]);
    LoopOutcome(j);
  }

  /**
    What the caller sees: blank text on the last attempt is answered with the
    fixed "No text detected" string, and a thrown run carries the last
    attempt's message, one of the four classified messages when the attempts
    come from `performOCR`.
   */
  lemma ReturnedMessages(outcomes: seq<Result<OcrResult, Thrown>>)
    requires |outcomes| >= MaxRetries
    requires forall k :: 0 <= k < MaxRetries && outcomes[k].Err? ==>
      outcomes[k].error.ErrorObject? && Classified(outcomes[k].error.message)
    ensures var seen := Returned(ExtractText(outcomes).outcome);
      seen.Err? ==> Classified(seen.error)
    ensures var seen := Returned(ExtractText(outcomes).outcome);
      !Readable(outcomes[0]) && !Readable(outcomes[1]) && outcomes[2].Ok? && Trim(outcomes[2].value.text) == "" ==>
        seen == Ok(NoTextMessage)
  {
    ExtractTextOutcome(outcomes);
    var o := ExtractText(outcomes).outcome;
    if o.Rethrown? {
      assert !Readable(outcomes[0]) && !Readable(outcomes[1]) && !Readable(outcomes[2]) && outcomes[2].Err?;
      assert o == Rethrown(Some(outcomes[2].error));
      assert 0 <= 2 < MaxRetries && outcomes[2].Err?;
    }
  }

  /** A non-ok response is reported as a network problem or as the service being unavailable, never as a processing failure. */
  lemma HttpFailureClassified(s: Service, base64: string, resp: Response, processingTime: int)
    requires !resp.ok
    ensures var r := PerformOcr(s, Ok(base64), Ok(resp), processingTime);
      r == Err(NetworkMessage) || r == Err(UnavailableMessage)
  {
    var m := HttpErrorMessage(resp.status, resp.statusText);
    assert OccursAt(m, "HTTP error", 0);
  }

  /** `getApiKey` / the key in `getServiceInfo`: the first eight characters followed by "...". */
  function Mask(key: string): (m: string)
    ensures |m| == (if |key| < 8 then |key| else 8) + 3
    ensures m[..|m| - 3] <= key && m[|m| - 3..] == MaskSuffix
  {
    Prefix(key, 8) + MaskSuffix
  }

  /** `getApiKey`: the key as shown, its first eight characters and "...". */
  function GetApiKey(s: Service): (shown: string)
    ensures |shown| >= 3 && shown[..|shown| - 3] <= s.apiKey && shown[|shown| - 3..] == MaskSuffix
    ensures |s.apiKey| >= 8 ==> |shown| == 11
  {
    Mask(s.apiKey)
  }

  function GetServiceInfo(s: Service): (info: ServiceInfo)
    ensures info.apiKey == GetApiKey(s)
  {
    ServiceInfo("OCR.space", "Engine 2 (Advanced)", "English", Mask(s.apiKey))
  }

  function UpdateApiKey(s: Service, key: string): (r: Service)
    ensures r.apiKey == key
  {
    Service(key)
  }

  /** Two keys mask alike exactly when their first eight characters agree: nothing past them is exposed. */
  lemma MaskRevealsOnlyPrefix(k1: string, k2: string)
    ensures Mask(k1) == Mask(k2) <==> Prefix(k1, 8) == Prefix(k2, 8)
  {
    if Mask(k1) == Mask(k2) {
      var m := Mask(k1);
      assert Prefix(k1, 8) == m[..|m| - 3];
      assert Prefix(k2, 8) == Mask(k2)[..|m| - 3];
    }
  }

  /** After `updateApiKey` the masked getters and every later request use the new key. */
  lemma UpdateApiKeyTakesEffect(s: Service, key: string, base64: string)
    ensures GetApiKey(UpdateApiKey(s, key)) == Mask(key)
    ensures GetServiceInfo(UpdateApiKey(s, key)).apiKey == Mask(key)
    ensures Lookup(CreateFormData(UpdateApiKey(s, key), base64), "apikey") == Some(Text(key))
  {
    var form := CreateFormData(UpdateApiKey(s, key), base64);
    assert Lookup(form[2..], "apikey") == Some(Text(key));
    assert Lookup(form[1..], "apikey") == Lookup(form[1..][1..], "apikey");
    assert form[1..][1..] == form[2..];
  }

  /** The initial key is the built-in one, shown as its first eight characters. */
  lemma InitialMask()
    ensures GetApiKey(Initial) == "K8769656..."
  {
  }

  /** The key-check request of `validateApiKey`: a one-pixel PNG and the key. */
  function ValidationForm(s: Service): (form: seq<Field>)
    ensures FieldNames(form) == ["base64Image", "apikey"]
    ensures form[0].value == Text("data:image/png;base64," + ValidationImage)
    ensures form[1].value == Text(s.apiKey)
  {
    [ Field("base64Image", Text("data:image/png;base64," + ValidationImage)),
      Field("apikey", Text(s.apiKey)) ]
  }

  const ValidationImage: string := "iVBORw0KGgoAAAANSUhEUgAAAAEAAAABCAYAAAAfFcSJAAAADUlEQVR42mNkYPhfDwAChAI9jU77mgAAAABJRU5ErkJggg=="

  /** `validateApiKey`: the key is accepted when the body reads and reports no processing error; any failure means false. */
  function ValidateApiKey(body: Result<Payload, Thrown>): (valid: bool)
    ensures valid <==> body.Ok? && !body.value.isErroredOnProcessing
  {
    match body
    case Ok(p) => !p.isErroredOnProcessing
    case Err(_) => false
  }

  /** The six fields `extractTextFromImage` posts, with the built-in key. */
  function QuickFormData(base64Image: string): (form: seq<Field>)
    ensures FieldNames(form) == ["base64Image", "language", "apikey", "OCREngine", "detectOrientation", "scale"]
    ensures form[0].value == Text("data:image/jpeg;base64," + base64Image)
    ensures form[2].value == Text(DefaultApiKey)
  {
    [ Field("base64Image", Text("data:image/jpeg;base64," + base64Image)),
      Field("language", Text("eng")),
      Field("apikey", Text(DefaultApiKey)),
      Field("OCREngine", Text("2")),
      Field("detectOrientation", Text("true")),
      Field("scale", Text("true")) ]
  }

  /** The quick form is the service's form for the built-in key without its last two fields. */
  lemma QuickFormIsServiceFormPrefix(base64Image: string)
    ensures QuickFormData(base64Image) == CreateFormData(Initial, base64Image)[..6]
  {
  }

  /**
    `extractTextFromImage`: never throws. `body` is what `fetch` and
    `response.json()` together produced. Any failure or missing piece gives
    `''`; otherwise the first result's text as received, untrimmed.
   */
  function ExtractTextFromImage(base64Image: string, body: Result<Payload, Thrown>): (text: string)
    ensures body.Err? ==> text == ""
    ensures body.Ok? && FirstResult(body.value).None? ==> text == ""
    ensures body.Ok? && FirstResult(body.value).Some? ==>
      text == match FirstResult(body.value).value.parsedText case Some(t) => t case None => ""
  {
    var _ := QuickFormData(base64Image);
    match body
    case Err(_) => ""
    case Ok(p) =>
      match FirstResult(p)
      case None => ""
      case Some(first) => match first.parsedText case Some(t) => t case None => ""
  }

  /** A parsed text is already trimmed, so the loop's blank test on it is plain emptiness. */
  lemma ParsedTextTrimmed(p: Payload, processingTime: int)
    ensures var r := ParseOcrResponse(p, processingTime);
      r.Ok? ==> Trim(r.value.text) == r.value.text && (Readable(Ok(r.value)) <==> r.value.text != "")
  {
    var r := ParseOcrResponse(p, processingTime);
    if r.Ok? {
      TrimIdempotent(StringOr(FirstResult(p).value.parsedText, ""));
    }
  }

  /**
    Where `parseOCRResponse` accepts a body, the one-shot call returns the
    same text before trimming; and the one-shot call ignores the
    processing-error flag altogether.
   */
  lemma QuickTextAgreesWithParser(base64Image: string, p: Payload, processingTime: int)
    ensures !p.isErroredOnProcessing && FirstResult(p).Some? ==>
      Trim(ExtractTextFromImage(base64Image, Ok(p))) == ParseOcrResponse(p, processingTime).value.text
    ensures ExtractTextFromImage(base64Image, Ok(p)) ==
      ExtractTextFromImage(base64Image, Ok(p.(isErroredOnProcessing := !p.isErroredOnProcessing)))
  {
  }
}
