/**
  The earlier document list: a fixed "Recent files" header, nothing at all
  for an empty list, and an options menu (an action sheet on iOS, a modal
  elsewhere) that also offers OCR and deletes without asking.
 */
module PdfListLegacy {
  import opened JsRuntime
  import opened PdfDocuments

  const Title: string := "Recent files"

  /** The entries of the options modal. */
  datatype Action = Open | Ocr | Share | Delete

  /** What the list shows when it shows anything. */
  datatype View = Listing(title: string, items: seq<Pdf>)

  /** The callback an entry stands for. */
  function CallbackOf(a: Action): Callback {
    match a
    case Open => OnSelect
    case Ocr => OnOcr
    case Share => OnShare
    case Delete => OnDelete
  }

  /** The list as rendered: nothing for an empty list, the titled list otherwise. */
  function Render(pdfs: seq<Pdf>): (v: Option<View>)
    ensures v.None? <==> |pdfs| == 0
    ensures v.Some? ==> v.value.items == pdfs && v.value.title == Title
  {
    if |pdfs| == 0 then None else Some(Listing(Title, pdfs))
  }

  /**
    `handleModalAction`: with no held document nothing happens. Otherwise the
    entry fires its own callback on the held document, the optional ones only
    when present and delete at once; then the modal closes and forgets it.
   */
  function HandleModalAction(m: Modal, a: Action, present: set<Callback>): (r: (seq<Effect>, Modal))
    ensures m.held.None? ==> r == ([], m)
    ensures m.held.Some? ==> r.1 == Closed
    ensures |r.0| <= 1
  {
    match m.held
    case None => ([], m)
    case Some(pdf) =>
      var effects :=
        if a == Open then [Fired(OnSelect, pdf)] else FireIfPresent(CallbackOf(a), pdf, present);
      (effects, Closed)
  }

  /** The iOS action sheet's answer: Cancel (0), Open (1), Apply OCR (2), Share (3), Delete (4). */
  function SheetSelect(pdf: Pdf, buttonIndex: int, present: set<Callback>): (effects: seq<Effect>)
    ensures |effects| <= 1
    ensures buttonIndex !in {1, 2, 3, 4} ==> effects == []
  {
    if buttonIndex == 1 then [Fired(OnSelect, pdf)]
    else if buttonIndex == 2 then FireIfPresent(OnOcr, pdf, present)
    else if buttonIndex == 3 then FireIfPresent(OnShare, pdf, present)
    else if buttonIndex == 4 then FireIfPresent(OnDelete, pdf, present)
    else []
  }

  /** The sheet index that stands for a modal action. */
  function SheetIndex(a: Action): int {
    match a
    case Open => 1
    case Ocr => 2
    case Share => 3
    case Delete => 4
  }

  /**
    Each entry fires exactly its own callback on the held document: always for
    Open, and for the optional callbacks exactly when the parent passed them.
   */
  lemma ModalActionFiresOwnCallback(m: Modal, a: Action, present: set<Callback>)
    requires m.held.Some?
    ensures var effects := HandleModalAction(m, a, present).0;
      && (effects != [] <==> a == Open || CallbackOf(a) in present)
      && (effects != [] ==> effects == [Fired(CallbackOf(a), m.held.value)])
  {
  }

  /** Delete needs no confirmation: with `onDelete` present the modal's Delete fires it at once. */
  lemma DeleteIsImmediate(pdf: Pdf, visible: bool, present: set<Callback>)
    requires OnDelete in present
    ensures HandleModalAction(Modal(visible, Some(pdf)), Delete, present).0 == [Fired(OnDelete, pdf)]
    ensures SheetSelect(pdf, 4, present) == [Fired(OnDelete, pdf)]
  {
  }

  /** The iOS sheet and the modal agree entry by entry, and the sheet's Cancel fires nothing. */
  lemma SheetMatchesModal(pdf: Pdf, a: Action, present: set<Callback>, visible: bool)
    ensures SheetSelect(pdf, SheetIndex(a), present) == HandleModalAction(Modal(visible, Some(pdf)), a, present).0
    ensures SheetSelect(pdf, 0, present) == []
  {
  }

  /** Opening the options on a non-iOS device and then choosing an entry fires it for that document and closes the modal. */
  lemma ShowThenAct(m: Modal, pdf: Pdf, a: Action, present: set<Callback>)
    ensures HandleModalAction(ShowOptions(m, pdf, false), a, present) ==
      (SheetSelect(pdf, SheetIndex(a), present), Closed)
  {
  }

  /** A second action on the closed modal does nothing: each opening fires at most one callback. */
  lemma SecondActionIgnored(m: Modal, a1: Action, a2: Action, present: set<Callback>)
    ensures var after := HandleModalAction(m, a1, present).1;
      HandleModalAction(after, a2, present) == ([], after)
  {
  }
}
