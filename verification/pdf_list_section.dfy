/**
  The document list with sorting: a sort-label header, a per-document options
  menu (an action sheet on iOS, a modal elsewhere) whose delete entry only asks
  for confirmation, and a sort menu that forwards the chosen key or an
  inversion to the parent.
 */
module PdfListSection {
  import opened JsRuntime
  import opened PdfDocuments

  datatype SortBy = ByName | ByDate | BySize
  datatype SortOrder = Asc | Desc

  const DefaultSortBy: SortBy := ByDate
  const DefaultSortOrder: SortOrder := Desc

  const EmptyMessage: string := "No PDF documents found. Import a PDF to get started."

  /** The entries of the options modal. */
  datatype Action = Open | Share | Delete

  /** What the list shows: the empty-state message, or a header over the documents. */
  datatype View = EmptyState(message: string) | Listing(header: string, items: seq<Pdf>)

  /** What the sort menu asks of the parent. */
  datatype SortRequest = SortByKey(key: SortBy) | InvertSort

  function Invert(o: SortOrder): SortOrder {
    if o == Asc then Desc else Asc
  }

  /** `getSortLabel`: the header naming the current ordering. */
  function GetSortLabel(key: SortBy, order: SortOrder): (text: string)
    ensures text != ""
  {
    match key
    case ByDate => if order == Asc then "First Uploaded" else "Recently Added"
    case ByName => if order == Asc then "Alphabetical Order" else "Reverse Alphabetical"
    case BySize => if order == Asc then "Smallest Files First" else "Biggest Files First"
  }

  /** The header text: the label, or a single space when the label is empty. */
  function Header(key: SortBy, order: SortOrder): (header: string)
    ensures header != ""
    ensures GetSortLabel(key, order) != "" ==> header == GetSortLabel(key, order)
  {
    var sortLabel := GetSortLabel(key, order);
    if sortLabel != "" then sortLabel else " "
  }

  /**
    The list as rendered. `pdfs` is `None` when the prop is not an array; such
    a value counts as the empty list.
   */
  function Render(pdfs: Option<seq<Pdf>>, key: SortBy, order: SortOrder): (v: View)
    ensures v.EmptyState? <==> pdfs.None? || |pdfs.value| == 0
    ensures v.EmptyState? ==> v.message == EmptyMessage
    ensures v.Listing? ==> v.items == pdfs.value && v.header == Header(key, order)
  {
    var safe := if pdfs.Some? then pdfs.value else [];
    if |safe| == 0 then EmptyState(EmptyMessage) else Listing(Header(key, order), safe)
  }

  /**
    `handleModalAction`: with no held document nothing happens. Otherwise open
    selects it, share forwards it when a share callback exists, delete opens
    the confirmation when a delete callback exists; then the modal closes and
    forgets the document.
   */
  function HandleModalAction(m: Modal, a: Action, present: set<Callback>): (r: (seq<Effect>, Modal))
    ensures m.held.None? ==> r == ([], m)
    ensures m.held.Some? ==> r.1 == Closed
    ensures |r.0| <= 1
    ensures m.held.Some? && a == Open ==> r.0 == [Fired(OnSelect, m.held.value)]
    ensures m.held.Some? && a == Share ==>
      (r.0 != [] <==> OnShare in present) && (r.0 != [] ==> r.0 == [Fired(OnShare, m.held.value)])
    ensures m.held.Some? && a == Delete ==>
      (r.0 != [] <==> OnDelete in present) && (r.0 != [] ==> r.0 == [ConfirmationShown(m.held.value)])
  {
    match m.held
    case None => ([], m)
    case Some(pdf) =>
      var effects :=
        match a
        case Open => [Fired(OnSelect, pdf)]
        case Share => FireIfPresent(OnShare, pdf, present)
        case Delete => if OnDelete in present then [ConfirmationShown(pdf)] else [];
      (effects, Closed)
  }

  /** The iOS action sheet's answer: Cancel (0), Open (1), Share (2), Delete (3). */
  function SheetSelect(pdf: Pdf, buttonIndex: int, present: set<Callback>): (effects: seq<Effect>)
    ensures |effects| <= 1
    ensures buttonIndex !in {1, 2, 3} ==> effects == []
    ensures buttonIndex == 1 ==> effects == [Fired(OnSelect, pdf)]
    ensures buttonIndex == 2 ==>
      (effects != [] <==> OnShare in present) && (effects != [] ==> effects == [Fired(OnShare, pdf)])
    ensures buttonIndex == 3 ==>
      (effects != [] <==> OnDelete in present) && (effects != [] ==> effects == [ConfirmationShown(pdf)])
  {
    if buttonIndex == 1 then [Fired(OnSelect, pdf)]
    else if buttonIndex == 2 then FireIfPresent(OnShare, pdf, present)
    else if buttonIndex == 3 && OnDelete in present then [ConfirmationShown(pdf)]
    else []
  }

  /** The delete confirmation's answer: only "Delete" fires `onDelete`. */
  function AnswerConfirmation(pdf: Pdf, confirmed: bool): (effects: seq<Effect>)
    ensures effects != [] <==> confirmed
    ensures confirmed ==> effects == [Fired(OnDelete, pdf)]
  {
    if confirmed then [Fired(OnDelete, pdf)] else []
  }

  /** A sort-menu entry: forwards the request when the parent handles it; the menu closes either way. */
  function ChooseSort(request: SortRequest, hasOnSort: bool, hasOnInvertSort: bool): (r: (seq<SortRequest>, bool))
    ensures !r.1
    ensures r.0 == [] || r.0 == [request]
  {
    var handled := if request.SortByKey? then hasOnSort else hasOnInvertSort;
    (if handled then [request] else [], false)
  }

  /** The sheet index that stands for a modal action. */
  function SheetIndex(a: Action): int {
    match a
    case Open => 1
    case Share => 2
    case Delete => 3
  }

  /** Each of the six orderings has its own label, so the header always tells them apart. */
  lemma SortLabelInjective(b1: SortBy, o1: SortOrder, b2: SortBy, o2: SortOrder)
    ensures GetSortLabel(b1, o1) == GetSortLabel(b2, o2) <==> b1 == b2 && o1 == o2
  {
  }

  /** Inverting the order always changes the header. */
  lemma InvertChangesLabel(key: SortBy, order: SortOrder)
    ensures GetSortLabel(key, Invert(order)) != GetSortLabel(key, order)
    ensures Invert(Invert(order)) == order
  {
    SortLabelInjective(key, Invert(order), key, order);
  }

  /** With the default props the header reads "Recently Added", and the single-space fallback never shows. */
  lemma DefaultHeader(key: SortBy, order: SortOrder)
    ensures Header(DefaultSortBy, DefaultSortOrder) == "Recently Added"
    ensures Header(key, order) == GetSortLabel(key, order)
  {
  }

  /**
    The iOS sheet and the modal agree: choosing entry `a` in either fires the
    same effects for the document, and the sheet's Cancel fires nothing.
   */
  lemma SheetMatchesModal(pdf: Pdf, a: Action, present: set<Callback>, visible: bool)
    ensures SheetSelect(pdf, SheetIndex(a), present) == HandleModalAction(Modal(visible, Some(pdf)), a, present).0
    ensures SheetSelect(pdf, 0, present) == []
  {
  }

  /**
    Deleting needs two steps: no menu entry fires `onDelete` by itself; it is
    fired only when the confirmation that the entry opened is answered "Delete".
   */
  lemma DeleteOnlyAfterConfirmation(m: Modal, a: Action, pdf: Pdf, i: int, present: set<Callback>)
    ensures Fired(OnDelete, pdf) !in HandleModalAction(m, a, present).0
    ensures Fired(OnDelete, pdf) !in SheetSelect(pdf, i, present)
    ensures OnDelete in present && m.held == Some(pdf) ==>
      HandleModalAction(m, Delete, present).0 == [ConfirmationShown(pdf)]
  {
  }

  /** Every effect of a modal action concerns the held document and only the action's own callback. */
  lemma ModalActionFiresOwnCallback(m: Modal, a: Action, present: set<Callback>, e: Effect)
    requires e in HandleModalAction(m, a, present).0
    ensures m.held == Some(e.pdf)
    ensures a == Open ==> e == Fired(OnSelect, e.pdf)
    ensures a == Share ==> e == Fired(OnShare, e.pdf) && OnShare in present
    ensures a == Delete ==> e == ConfirmationShown(e.pdf) && OnDelete in present
  {
  }

  /**
    An entry with a held document does something exactly when it can: Open
    always selects, Share needs `onShare`, Delete needs `onDelete`.
   */
  lemma ModalActionFires(m: Modal, a: Action, present: set<Callback>)
    requires m.held.Some?
    ensures var effects := HandleModalAction(m, a, present).0;
      effects != [] <==> a == Open || (a == Share && OnShare in present) || (a == Delete && OnDelete in present)
  {
  }

  /** Opening the options on a non-iOS device and then choosing an entry fires it for that document and closes the modal. */
  lemma ShowThenAct(m: Modal, pdf: Pdf, a: Action, present: set<Callback>)
    ensures HandleModalAction(ShowOptions(m, pdf, false), a, present) ==
      (SheetSelect(pdf, SheetIndex(a), present), Closed)
  {
  }

  /** The sort menu forwards a key exactly when `onSort` exists and an inversion exactly when `onInvertSort` does. */
  lemma ChooseSortForwards(request: SortRequest, hasOnSort: bool, hasOnInvertSort: bool)
    ensures request.SortByKey? ==> (ChooseSort(request, hasOnSort, hasOnInvertSort).0 != [] <==> hasOnSort)
    ensures request.InvertSort? ==> (ChooseSort(request, hasOnSort, hasOnInvertSort).0 != [] <==> hasOnInvertSort)
  {
  }
}
