/**
 * The pagination hook: a current page and a total item count, with the page
 * count derived by ceiling division and guarded go-to, next and previous
 * moves. The two state cells are a class's fields; each move is specified
 * by a step function on their values, about which the lemmas speak.
 */
module Pagination {

  /** `Math.ceil(a / b)` on integers, for a positive divisor. */
  function CeilDiv(a: int, b: int): (r: int)
    requires b > 0
    ensures (r - 1) * b < a <= r * b
  {
    var q := (a + b - 1) / b;
    assert a + b - 1 == b * q + (a + b - 1) % b;
    q
  }

  /** The hook's two state cells. */
  datatype Pages = Pages(currentPage: int, totalItems: int)

  function PageCount(totalItems: int, itemsPerPage: int): int
    requires itemsPerPage > 0
  {
    CeilDiv(totalItems, itemsPerPage)
  }

  /**
   * No items make no pages; otherwise the last page is the one holding the
   * last item: fewer pages would not hold all items, one more would be empty.
   */
  lemma PageCountSpec(totalItems: nat, itemsPerPage: int)
    requires itemsPerPage > 0
    ensures totalItems == 0 <==> PageCount(totalItems, itemsPerPage) == 0
    ensures PageCount(totalItems, itemsPerPage) >= 0
    ensures totalItems <= PageCount(totalItems, itemsPerPage) * itemsPerPage
    ensures totalItems > 0 ==> (PageCount(totalItems, itemsPerPage) - 1) * itemsPerPage < totalItems
  {
  }

  predicate HasNext(s: Pages, itemsPerPage: int)
    requires itemsPerPage > 0
  {
    s.currentPage < PageCount(s.totalItems, itemsPerPage)
  }

  predicate HasPrev(s: Pages)
  {
    s.currentPage > 1
  }

  /** `goToPage`: a page in `[1, totalPages]` is taken, anything else ignored. */
  function GoTo(s: Pages, itemsPerPage: int, page: int): Pages
    requires itemsPerPage > 0
  {
    if 1 <= page <= PageCount(s.totalItems, itemsPerPage) then s.(currentPage := page) else s
  }

  /** `nextPage` */
  function Next(s: Pages, itemsPerPage: int): Pages
    requires itemsPerPage > 0
  {
    if HasNext(s, itemsPerPage) then s.(currentPage := s.currentPage + 1) else s
  }

  /** `prevPage` */
  function Prev(s: Pages): Pages
  {
    if HasPrev(s) then s.(currentPage := s.currentPage - 1) else s
  }

  /** The current page is one of the existing pages. */
  predicate InRange(s: Pages, itemsPerPage: int)
    requires itemsPerPage > 0
  {
    1 <= s.currentPage <= PageCount(s.totalItems, itemsPerPage)
  }

  /** With no items there are no pages, so `goToPage` never moves. */
  lemma GoToWithoutItems(s: Pages, itemsPerPage: int, page: int)
    requires itemsPerPage > 0
    requires s.totalItems == 0
    ensures GoTo(s, itemsPerPage, page) == s
  {
    PageCountSpec(0, itemsPerPage);
  }

  /** A move changes the current page by exactly one, and only when allowed. */
  lemma StepsAreUnit(s: Pages, itemsPerPage: int)
    requires itemsPerPage > 0
    ensures Next(s, itemsPerPage).totalItems == s.totalItems && Prev(s).totalItems == s.totalItems
    ensures Next(s, itemsPerPage).currentPage == s.currentPage + (if HasNext(s, itemsPerPage) then 1 else 0)
    ensures Prev(s).currentPage == s.currentPage - (if HasPrev(s) then 1 else 0)
    ensures s.currentPage >= 1 ==> Prev(s).currentPage >= 1
  {
  }

  /** From a page at or after the first, a move forward is undone by a move back. */
  lemma NextThenPrev(s: Pages, itemsPerPage: int)
    requires itemsPerPage > 0
    requires s.currentPage >= 1
    requires Next(s, itemsPerPage) != s
    ensures Prev(Next(s, itemsPerPage)) == s
  {
  }

  /** From a page below the first, the round trip does not come back. */
  lemma NextThenPrevBelowFirst(itemsPerPage: int)
    requires itemsPerPage > 0
    ensures var s := Pages(0, 1);
      Next(s, itemsPerPage) != s && Prev(Next(s, itemsPerPage)) != s
  {
    PageCountSpec(1, itemsPerPage);
  }

  /** Go-to, next and previous keep a current page that is in range in range. */
  lemma MovesKeepInRange(s: Pages, itemsPerPage: int, page: int)
    requires itemsPerPage > 0
    requires InRange(s, itemsPerPage)
    ensures InRange(GoTo(s, itemsPerPage, page), itemsPerPage)
    ensures InRange(Next(s, itemsPerPage), itemsPerPage)
    ensures InRange(Prev(s), itemsPerPage)
  {
  }

  /**
   * Setting a smaller item count does not clamp the current page, so it can
   * leave a page that was in range out of range.
   */
  lemma SetTotalItemsMayLeaveRange()
    ensures InRange(Pages(3, 30), 10) && !InRange(Pages(3, 30).(totalItems := 5), 10)
  {
  }

  /** The hook instance: its two options are fixed, its two cells change. */
  class Pager {
    const initialPage: int
    const itemsPerPage: int
    var currentPage: int
    var totalItems: int

    ghost predicate Valid()
      reads this
    {
      itemsPerPage > 0
    }

    function State(): Pages
      reads this
    {
      Pages(currentPage, totalItems)
    }

    /** The options default to page 1 and ten items per page. */
    constructor(initialPage: int := 1, itemsPerPage: int := 10)
      requires itemsPerPage > 0
      ensures Valid()
      ensures this.initialPage == initialPage && this.itemsPerPage == itemsPerPage
      ensures State() == Pages(initialPage, 0)
    {
      this.initialPage := initialPage;
      this.itemsPerPage := itemsPerPage;
      currentPage := initialPage;
      totalItems := 0;
    }

    function TotalPages(): (r: int)
      requires Valid()
      reads this
      ensures totalItems >= 0 ==> r >= 0
      ensures totalItems >= 0 ==> (r == 0 <==> totalItems == 0)
    {
      if totalItems >= 0 then PageCountSpec(totalItems, itemsPerPage); PageCount(totalItems, itemsPerPage)
      else PageCount(totalItems, itemsPerPage)
    }

    function HasNextPage(): (r: bool)
      requires Valid()
      reads this
      ensures r <==> currentPage < TotalPages()
    {
      HasNext(State(), itemsPerPage)
    }

    function HasPrevPage(): (r: bool)
      reads this
      ensures r <==> currentPage > 1
    {
      HasPrev(State())
    }

    method GoToPage(page: int)
      requires Valid()
      modifies this
      ensures State() == GoTo(old(State()), itemsPerPage, page)
    {
      if 1 <= page <= TotalPages() {
        currentPage := page;
      }
    }

    method NextPage()
      requires Valid()
      modifies this
      ensures State() == Next(old(State()), itemsPerPage)
    {
      if HasNextPage() {
        currentPage := currentPage + 1;
      }
    }

    method PrevPage()
      requires Valid()
      modifies this
      ensures State() == Prev(old(State()))
    {
      if HasPrevPage() {
        currentPage := currentPage - 1;
      }
    }

    /** Back to the initial page, whatever the state; the item count stays. */
    method Reset()
      modifies this
      ensures State() == old(State()).(currentPage := initialPage)
    {
      currentPage := initialPage;
    }

    /** Only the item count changes; the current page is not clamped. */
    method SetTotalItems(n: int)
      modifies this
      ensures State() == old(State()).(totalItems := n)
    {
      totalItems := n;
    }
  }
}
