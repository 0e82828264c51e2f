/**
  What both PDF list components share: the document record, the callbacks a
  list can fire on a document, the options modal's state, and the zero case
  of the file-size label. Rendering is not modelled; a handler's observable
  effect is the sequence of callbacks it fires and dialogs it opens.
 */
module PdfDocuments {
  import opened JsRuntime

  /** A listed document; `date` is an ISO timestamp kept as text. */
  datatype Pdf = Pdf(uri: string, name: string, size: int, date: string)

  /** The callbacks a list receives; only `OnSelect` is mandatory. */
  datatype Callback = OnSelect | OnOcr | OnShare | OnDelete

  /** One observable effect of a handler: a callback fired with a document, or the delete confirmation opened for it. */
  datatype Effect = Fired(callback: Callback, pdf: Pdf) | ConfirmationShown(pdf: Pdf)

  /** The options modal: whether it shows, and the document it was opened for (`modalPDF`). */
  datatype Modal = Modal(visible: bool, held: Option<Pdf>)

  const Closed: Modal := Modal(false, None)

  /** Fires `c` for `pdf` when the parent passed that callback, and nothing otherwise. */
  function FireIfPresent(c: Callback, pdf: Pdf, present: set<Callback>): (effects: seq<Effect>)
    ensures effects == [] || effects == [Fired(c, pdf)]
    ensures effects != [] <==> c in present
  {
    if c in present then [Fired(c, pdf)] else []
  }

  /**
    `showOptions` on a non-iOS device: the modal opens holding the document.
    On iOS the action sheet is shown instead and the modal is left as it is.
   */
  function ShowOptions(m: Modal, pdf: Pdf, ios: bool): (r: Modal)
    ensures ios ==> r == m
    ensures !ios ==> r.visible && r.held == Some(pdf)
  {
    if ios then m else Modal(true, Some(pdf))
  }

  /** Dismissing the modal (tapping outside it, or the back button) hides it; the held document stays. */
  function Dismiss(m: Modal): (r: Modal)
    ensures !r.visible && r.held == m.held
  {
    m.(visible := false)
  }

  /** The label for a byte count; only the zero case is modelled, the unit arithmetic is not. */
  function FormatFileSize(bytes: int): (shown: Option<string>)
    ensures shown.Some? <==> bytes == 0
    ensures shown.Some? ==> shown.value == "0 Bytes"
  {
    if bytes == 0 then Some("0 Bytes") else None
  }
}
