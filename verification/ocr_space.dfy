/**
  The shapes both OCR clients exchange with the OCR.space web service: the
  multipart form fields they send and the JSON body they read back. `fetch`
  and `response.json()` themselves are not modelled; their outcomes are inputs.
 */
module OcrSpace {
  import opened JsRuntime

  /** One entry of `ParsedResults`; `hasOverlay` is `TextOverlay?.HasOverlay`, false when absent. */
  datatype ParsedResult = ParsedResult(parsedText: Option<string>, hasOverlay: bool)

  /** The JSON body: `IsErroredOnProcessing`, `ErrorMessage`, `ParsedResults`. */
  datatype Payload = Payload(
    isErroredOnProcessing: bool,
    errorMessage: Option<string>,
    parsedResults: Option<seq<ParsedResult>>)

  /** `result.ParsedResults?.[0]`: the first parsed result, when there is one. */
  function FirstResult(p: Payload): (r: Option<ParsedResult>)
    ensures r.Some? <==> p.parsedResults.Some? && |p.parsedResults.value| > 0
    ensures r.Some? ==> r.value == p.parsedResults.value[0]
  {
    match p.parsedResults
    case None => None
    case Some(rs) => if |rs| == 0 then None else Some(rs[0])
  }

  /** A form field value: a string, or a file reference `{ uri, type, name }`. */
  datatype FieldValue = Text(s: string) | FileRef(uri: string, mimeType: string, name: string)

  datatype Field = Field(name: string, value: FieldValue)

  /** The value of the first field called `name`, if any. */
  function Lookup(form: seq<Field>, name: string): (r: Option<FieldValue>)
    ensures r.Some? <==> exists i :: 0 <= i < |form| && form[i].name == name
    ensures r.Some? ==> exists i :: 0 <= i < |form| && FirstNamed(form, name, i) && r.value == form[i].value
    decreases |form|
  {
    if |form| == 0 then None
    else if form[0].name == name then
      assert FirstNamed(form, name, 0);
      Some(form[0].value)
    else
      var r := Lookup(form[1..], name);
      assert (exists i :: 0 <= i < |form| && form[i].name == name) ==>
        exists j :: 0 <= j < |form[1..]| && form[1..][j].name == name by {
        if exists i :: 0 <= i < |form| && form[i].name == name {
          var i :| 0 <= i < |form| && form[i].name == name;
          assert form[1..][i - 1] == form[i];
        }
      }
      if r.Some? then
        var j :| 0 <= j < |form[1..]| && FirstNamed(form[1..], name, j) && r.value == form[1..][j].value;
        assert FirstNamed(form, name, j + 1) by {
          forall k | 0 <= k < j + 1 ensures form[k].name != name {
            if k > 0 { assert form[k] == form[1..][k - 1]; }
          }
        }
        r
      else r
  }

  /** Position `i` holds the first field called `name`. */
  predicate FirstNamed(form: seq<Field>, name: string, i: int) {
    0 <= i < |form| && form[i].name == name && forall k :: 0 <= k < i ==> form[k].name != name
  }

  /** The names of a form's fields, in order. */
  function FieldNames(form: seq<Field>): (names: seq<string>)
    ensures |names| == |form| && forall i :: 0 <= i < |form| ==> names[i] == form[i].name
  {
    seq(|form|, i requires 0 <= i < |form| => form[i].name)
  }

  /** What `fetch` resolves with: `ok`, the status line, and the body as `response.json()` reads it. */
  datatype Response = Response(ok: bool, status: nat, statusText: string, body: Result<Payload, Thrown>)
}
