/**
 * The pagination control: from the `currentPage` and `totalPages` props it
 * renders nothing, or a Previous button, one button per page and a Next
 * button, each wired to `onPageChange` with the page it requests.
 */
module PaginationControl {
  import opened Wrappers

  /** A page-number button: its page number, the page its click requests, and whether it is highlighted. */
  datatype PageButton = PageButton(number: int, request: int, active: bool)

  /** What the control renders when it renders anything. */
  datatype Control = Control(
    prevDisabled: bool, prevRequest: int,
    pages: seq<PageButton>,
    nextDisabled: bool, nextRequest: int)

  /** The buttons a user can press. */
  datatype Click = Previous | Next | PageAt(index: int)

  /** The control for the given props; `None` is the `return null` branch. */
  function Render(currentPage: int, totalPages: int): Option<Control>
  {
    if totalPages <= 1 then None
    else Some(Control(
      currentPage == 1, currentPage - 1,
      seq(totalPages, i requires 0 <= i < totalPages => PageButton(i + 1, i + 1, currentPage == i + 1)),
      currentPage == totalPages, currentPage + 1))
  }

  /** The page `onPageChange` receives for a click; `None` when the pressed button is disabled or absent. */
  function Request(c: Control, click: Click): Option<int>
  {
    match click
    case Previous => if c.prevDisabled then None else Some(c.prevRequest)
    case Next => if c.nextDisabled then None else Some(c.nextRequest)
    case PageAt(i) => if 0 <= i < |c.pages| then Some(c.pages[i].request) else None
  }

  /** The control is rendered exactly when there are at least two pages. */
  lemma RenderedIffSeveralPages(currentPage: int, totalPages: int)
    ensures Render(currentPage, totalPages).Some? <==> totalPages > 1
  {
  }

  /** It offers `totalPages` page buttons, numbered 1..totalPages in ascending order, each requesting its own number. */
  lemma PageButtonsNumbered(currentPage: int, totalPages: int)
    requires Render(currentPage, totalPages).Some?
    ensures var c := Render(currentPage, totalPages).value;
      && |c.pages| == totalPages
      && (forall k :: 0 <= k < |c.pages| ==> c.pages[k].number == k + 1 && c.pages[k].request == k + 1)
      && (forall k, l :: 0 <= k < l < |c.pages| ==> c.pages[k].number < c.pages[l].number)
  {
  }

  /** A page button is active iff its number is the current page, so at most one is active, and exactly one when the current page is in range. */
  lemma ActiveButton(currentPage: int, totalPages: int)
    requires Render(currentPage, totalPages).Some?
    ensures var c := Render(currentPage, totalPages).value;
      && (forall k :: 0 <= k < |c.pages| ==> (c.pages[k].active <==> c.pages[k].number == currentPage))
      && (forall k, l :: 0 <= k < |c.pages| && 0 <= l < |c.pages| && c.pages[k].active && c.pages[l].active ==> k == l)
      && (1 <= currentPage <= totalPages ==> c.pages[currentPage - 1].active)
  {
  }

  /** Previous is disabled iff the current page is 1, Next iff it is the last page; they request the neighbouring pages. */
  lemma PreviousAndNext(currentPage: int, totalPages: int)
    requires Render(currentPage, totalPages).Some?
    ensures var c := Render(currentPage, totalPages).value;
      && (c.prevDisabled <==> currentPage == 1)
      && (c.nextDisabled <==> currentPage == totalPages)
      && Request(c, Previous) == (if currentPage == 1 then None else Some(currentPage - 1))
      && Request(c, Next) == (if currentPage == totalPages then None else Some(currentPage + 1))
      && (forall k :: 0 <= k < totalPages ==> Request(c, PageAt(k)) == Some(k + 1))
  {
  }

  /** From an in-range current page, every enabled button requests a page in 1..totalPages. */
  lemma RequestsStayInRange(currentPage: int, totalPages: int, click: Click)
    requires 1 <= currentPage <= totalPages
    requires Render(currentPage, totalPages).Some?
    ensures var p := Request(Render(currentPage, totalPages).value, click);
      p.Some? ==> 1 <= p.value <= totalPages
  {
  }
}
