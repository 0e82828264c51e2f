/**
  The demo OCR client: it reloads its key from storage before every request,
  never throws, and turns every failure into a sample text that carries the
  failure's message after "Note: ". Storage and `fetch` are not modelled:
  what `AsyncStorage.getItem` and `fetch` plus `response.json()` produced are
  inputs.
 */
module OcrDemo {
  import opened JsRuntime
  import opened OcrSpace

  const MissingKeyMessage: string := "OCR API key not configured. Please set your API key in Settings."
  const ServerFailedMessage: string := "OCR processing failed"
  const NonErrorNote: string := "OCR service unavailable"

  /** The sample text around the note; the template literal keeps its trailing space and indented blank line. */
  const SampleHead: string :=
    "Sample extracted text from image. This would normally be the actual text extracted from the image using OCR technology. \n      \nNote: "
  const SampleTail: string :=
    "\n\nTo use real OCR functionality:\n1. Get an API key from OCR.space or similar service\n2. Go to Settings > OCR Configuration\n3. Enter your API key\n\nThe text extraction would identify all readable text content in the image and return it as a string that can be read aloud or processed further."

  /** The service's mutable part: the key it last loaded, initially empty. */
  datatype Service = Service(apiKey: string)

  const Initial: Service := Service("")

  /**
    `loadApiKey`: a stored non-empty key replaces the current one; a missing or
    empty stored value, or a storage failure, keeps the previous key.
   */
  function LoadApiKey(s: Service, stored: Result<Option<string>, Thrown>): (r: Service)
    ensures stored.Ok? && stored.value.Some? && stored.value.value != "" ==> r.apiKey == stored.value.value
    ensures stored.Err? || stored.value.None? || stored.value.value == "" ==> r == s
  {
    match stored
    case Ok(Some(key)) => if key != "" then Service(key) else s
    case _ => s
  }

  /** The request form: key, language, no overlay, and the image file as a JPEG named image.jpg. */
  function Request(key: string, imageUri: string): (form: seq<Field>)
    ensures FieldNames(form) == ["apikey", "language", "isOverlayRequired", "file"]
    ensures form[0].value == Text(key) && form[1].value == Text("eng") && form[2].value == Text("false")
    ensures form[3].value == FileRef(imageUri, "image/jpeg", "image.jpg")
  {
    [ Field("apikey", Text(key)),
      Field("language", Text("eng")),
      Field("isOverlayRequired", Text("false")),
      Field("file", FileRef(imageUri, "image/jpeg", "image.jpg")) ]
  }

  /** The text returned in place of an error: the fixed explanation with `note` after "Note: ". */
  function SampleText(note: string): (t: string)
    ensures |t| == |SampleHead| + |note| + |SampleTail|
    ensures t[..|SampleHead|] == SampleHead
    ensures t[|SampleHead|..|SampleHead| + |note|] == note
    ensures t[|SampleHead| + |note|..] == SampleTail
  {
    SampleHead + note + SampleTail
  }

  /** Reads the note back out of a sample text; `None` for anything not shaped like one. */
  function NoteOf(text: string): (note: Option<string>)
    ensures note.Some? ==> SampleText(note.value) == text
  {
    if |text| >= |SampleHead| + |SampleTail|
      && text[..|SampleHead|] == SampleHead
      && text[|text| - |SampleTail|..] == SampleTail
    then
      FramedSplit(SampleHead, text, SampleTail);
      Some(text[|SampleHead|..|text| - |SampleTail|])
    else None
  }

  /** A text that starts with `head` and ends with `tail` is `head`, its middle, then `tail`. */
  lemma FramedSplit(head: string, text: string, tail: string)
    requires |text| >= |head| + |tail| && text[..|head|] == head && text[|text| - |tail|..] == tail
    ensures head + text[|head|..|text| - |tail|] + tail == text
  {
  }

  /** The note a caught value contributes: an Error's message, or a fixed phrase for anything else. */
  function NoteFor(t: Thrown): (note: string)
    ensures t.ErrorObject? ==> note == t.message
    ensures t.OtherValue? ==> note == NonErrorNote
  {
    match t
    case ErrorObject(m) => m
    case OtherValue => NonErrorNote
  }

  /** One call of `extractText`: the service afterwards, the text returned, and the request sent if any. */
  datatype Extraction = Extraction(service: Service, text: string, request: Option<seq<Field>>)

  /**
    `extractText`: reload the key, refuse to send without one, send the form,
    and read the answer. `body` is what `fetch` and `response.json()` produced.
   */
  function ExtractText(s: Service, imageUri: string, stored: Result<Option<string>, Thrown>, body: Result<Payload, Thrown>)
    : (r: Extraction)
    ensures r.service == LoadApiKey(s, stored)
    ensures r.request.Some? <==> r.service.apiKey != ""
    ensures r.request.Some? ==> r.request.value == Request(r.service.apiKey, imageUri)
  {
    var loaded := LoadApiKey(s, stored);
    if loaded.apiKey == "" then Extraction(loaded, SampleText(MissingKeyMessage), None)
    else
      var request := Request(loaded.apiKey, imageUri);
      var text :=
        match body
        case Err(t) => SampleText(NoteFor(t))
        case Ok(p) =>
          if p.isErroredOnProcessing then SampleText(StringOr(p.errorMessage, ServerFailedMessage))
          else
            var first := FirstResult(p);
            Trim(if first.Some? then StringOr(first.value.parsedText, "") else "");
      Extraction(loaded, text, Some(request))
  }

  /** The note is recovered exactly from the sample text: no message is lost or altered. */
  lemma SampleNoteRoundTrip(note: string)
    ensures NoteOf(SampleText(note)) == Some(note)
  {
    var t := SampleText(note);
    assert t[..|SampleHead|] == SampleHead;
    assert t[|t| - |SampleTail|..] == SampleTail;
    assert t[|SampleHead|..|t| - |SampleTail|] == note;
  }

  /** Without a key, nothing is sent and the sample text carries the "not configured" message. */
  lemma MissingKeyReported(s: Service, imageUri: string, stored: Result<Option<string>, Thrown>, body: Result<Payload, Thrown>)
    requires LoadApiKey(s, stored).apiKey == ""
    ensures ExtractText(s, imageUri, stored, body).request.None?
    ensures NoteOf(ExtractText(s, imageUri, stored, body).text) == Some(MissingKeyMessage)
  {
    SampleNoteRoundTrip(MissingKeyMessage);
  }

  /** A failed request or unreadable body is returned as the sample text carrying what was thrown. */
  lemma FailureReported(s: Service, imageUri: string, stored: Result<Option<string>, Thrown>, t: Thrown)
    requires LoadApiKey(s, stored).apiKey != ""
    ensures NoteOf(ExtractText(s, imageUri, stored, Err(t)).text) == Some(NoteFor(t))
  {
    SampleNoteRoundTrip(NoteFor(t));
  }

  /** A server-side error is returned as the sample text carrying its message, or "OCR processing failed". */
  lemma ServerErrorReported(s: Service, imageUri: string, stored: Result<Option<string>, Thrown>, p: Payload)
    requires LoadApiKey(s, stored).apiKey != "" && p.isErroredOnProcessing
    ensures NoteOf(ExtractText(s, imageUri, stored, Ok(p)).text) == Some(StringOr(p.errorMessage, ServerFailedMessage))
  {
    SampleNoteRoundTrip(StringOr(p.errorMessage, ServerFailedMessage));
  }

  /**
    On success the text is the first result's text with surrounding white
    space removed, `''` when there is none; trimming it again changes nothing.
   */
  lemma SuccessTrimmed(s: Service, imageUri: string, stored: Result<Option<string>, Thrown>, p: Payload)
    requires LoadApiKey(s, stored).apiKey != "" && !p.isErroredOnProcessing
    ensures var text := ExtractText(s, imageUri, stored, Ok(p)).text;
      && (FirstResult(p).None? ==> text == "")
      && (FirstResult(p).Some? ==> text == Trim(StringOr(FirstResult(p).value.parsedText, "")))
      && Trim(text) == text
  {
    var first := FirstResult(p);
    TrimIdempotent(if first.Some? then StringOr(first.value.parsedText, "") else "");
  }

  /** Loading is idempotent, and an absent, empty or unreadable stored key never erases a loaded one. */
  lemma LoadApiKeyKeepsPrevious(s: Service, stored: Result<Option<string>, Thrown>)
    ensures LoadApiKey(LoadApiKey(s, stored), stored) == LoadApiKey(s, stored)
    ensures s.apiKey != "" ==> LoadApiKey(s, stored).apiKey != ""
  {
  }

  /** The request carries the loaded key under `apikey` and the image under `file`. */
  lemma RequestFields(key: string, imageUri: string)
    ensures Lookup(Request(key, imageUri), "apikey") == Some(Text(key))
    ensures Lookup(Request(key, imageUri), "file") == Some(FileRef(imageUri, "image/jpeg", "image.jpg"))
  {
    var form := Request(key, imageUri);
    assert form[1..][1..] == form[2..] && form[2..][1..] == form[3..];
    assert Lookup(form[3..], "file") == Some(FileRef(imageUri, "image/jpeg", "image.jpg"));
    assert Lookup(form[2..], "file") == Lookup(form[3..], "file");
    assert Lookup(form[1..], "file") == Lookup(form[2..], "file");
  }
}
