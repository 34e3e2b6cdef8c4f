/** The pagination bar of client/components/pagination.tsx: the previous/next guards,
    the five-button page window and the "Showing start-end of total" label. */
module Pagination {
  import opened Records
  import MockData

  /** The largest number of page buttons shown at once. */
  const MaxButtons := 5

  /** `handlePrevious`: the page passed to `onPageChange`, if any. */
  function HandlePrevious(currentPage: int): Option<int>
  {
    if currentPage > 1 then Some(currentPage - 1) else None
  }

  /** `handleNext`: the page passed to `onPageChange`, if any. */
  function HandleNext(currentPage: int, totalPages: int): Option<int>
  {
    if currentPage < totalPages then Some(currentPage + 1) else None
  }

  /** The `disabled` condition of the previous button. */
  predicate PreviousDisabled(currentPage: int)
  {
    currentPage <= 1
  }

  /** The `disabled` condition of the next button. */
  predicate NextDisabled(currentPage: int, totalPages: int)
  {
    currentPage >= totalPages
  }

  /** A button is disabled exactly when its handler would do nothing, and an enabled
      button moves one page back or forward. */
  lemma DisabledIffNoChange(currentPage: int, totalPages: int)
    ensures PreviousDisabled(currentPage) <==> HandlePrevious(currentPage).None?
    ensures NextDisabled(currentPage, totalPages) <==> HandleNext(currentPage, totalPages).None?
    ensures HandlePrevious(currentPage).Some? ==> HandlePrevious(currentPage).value == currentPage - 1
    ensures HandleNext(currentPage, totalPages).Some? ==> HandleNext(currentPage, totalPages).value == currentPage + 1
  {
  }

  /** From a page in `[1, totalPages]`, previous and next only ever request a page in
      that range too. */
  lemma HandlersStayInRange(currentPage: int, totalPages: int)
    requires 1 <= currentPage <= totalPages
    ensures HandlePrevious(currentPage).Some? ==> 1 <= HandlePrevious(currentPage).value <= totalPages
    ensures HandleNext(currentPage, totalPages).Some? ==> 1 <= HandleNext(currentPage, totalPages).value <= totalPages
  {
  }

  /** `Array.from({ length: Math.min(totalPages, 5) })`: a negative length gives no buttons. */
  function ButtonCount(totalPages: int): (n: nat)
    ensures n <= MaxButtons && n <= (if totalPages < 0 then 0 else totalPages)
    ensures n == MaxButtons || n == totalPages || (n == 0 && totalPages < 0)
  {
    if totalPages <= 0 then 0 else if totalPages < MaxButtons then totalPages else MaxButtons
  }

  /** The page number written on button `i`. */
  function PageNumber(i: int, currentPage: int, totalPages: int): int
  {
    if totalPages <= 5 then i + 1
    else if currentPage <= 3 then i + 1
    else if currentPage >= totalPages - 2 then totalPages - 4 + i
    else currentPage - 2 + i
  }

  /** The page numbers of the buttons, left to right. */
  function PageWindow(currentPage: int, totalPages: int): (w: seq<int>)
    ensures |w| == ButtonCount(totalPages)
  {
    seq(ButtonCount(totalPages), i requires 0 <= i < ButtonCount(totalPages) => PageNumber(i, currentPage, totalPages))
  }

  /** The first page of the window: all pages when they fit, the first five near the
      start, the last five near the end, and two either side of the current page
      otherwise. */
  function WindowStart(currentPage: int, totalPages: int): int
  {
    if totalPages <= 5 || currentPage <= 3 then 1
    else if currentPage >= totalPages - 2 then totalPages - 4
    else currentPage - 2
  }

  /** The window holds `min(totalPages, 5)` consecutive increasing pages from
      `WindowStart`, every one of them a real page, whatever the current page. */
  lemma PageWindowShape(currentPage: int, totalPages: int)
    ensures var w := PageWindow(currentPage, totalPages);
      && |w| == (if totalPages <= 0 then 0 else if totalPages < 5 then totalPages else 5)
      && (forall i :: 0 <= i < |w| ==> w[i] == WindowStart(currentPage, totalPages) + i)
      && (forall i :: 0 <= i < |w| ==> 1 <= w[i] <= totalPages)
  {
  }

  /** The window contains the current page exactly when the current page is a real
      page, and then exactly one button is highlighted. */
  lemma PageWindowContainsCurrent(currentPage: int, totalPages: int)
    ensures currentPage in PageWindow(currentPage, totalPages) <==> 1 <= currentPage <= totalPages
    ensures var w := PageWindow(currentPage, totalPages);
      forall i, j :: 0 <= i < |w| && 0 <= j < |w| && w[i] == currentPage && w[j] == currentPage ==> i == j
  {
    var w := PageWindow(currentPage, totalPages);
    PageWindowShape(currentPage, totalPages);
    if 1 <= currentPage <= totalPages {
      var k := currentPage - WindowStart(currentPage, totalPages);
      assert 0 <= k < |w| && w[k] == currentPage;
    }
  }

  /** The first item number of the label, before the `total > 0` test. */
  function RangeStart(currentPage: int, limit: int): int
  {
    (currentPage - 1) * limit + 1
  }

  /** `Math.min(currentPage * limit, total)`. */
  function RangeEnd(currentPage: int, limit: int, total: int): (e: int)
    ensures e <= total && e <= currentPage * limit
    ensures e == total || e == currentPage * limit
  {
    if currentPage * limit < total then currentPage * limit else total
  }

  /** The first number shown in the label: 0 when there are no results. */
  function ShownStart(currentPage: int, limit: int, total: int): int
  {
    if total > 0 then RangeStart(currentPage, limit) else 0
  }

  /** For a positive limit and a page that has results, the label reads
      `start-end` with `1 <= start <= end <= total`, and its span holds exactly the
      records the mock backend returns for that page. */
  lemma RangeLabelMatchesPage(seed: seq<ImageResult>, currentPage: int, limit: int, searchTerm: string)
    requires currentPage >= 1 && limit >= 1
    ensures var r := MockData.QueryImages(seed, currentPage, limit, searchTerm);
      var start := ShownStart(currentPage, limit, r.total);
      var end := RangeEnd(currentPage, limit, r.total);
      && (RangeStart(currentPage, limit) <= r.total ==> 1 <= start <= end <= r.total && |r.data| == end - start + 1)
      && (RangeStart(currentPage, limit) > r.total ==> r.data == [])
  {
    var r := MockData.QueryImages(seed, currentPage, limit, searchTerm);
    MockData.QueryPageWindow(seed, currentPage, limit, searchTerm);
    var offset := (currentPage - 1) * limit;
    MockData.MulNonNegative(currentPage - 1, limit);
    assert r.total == |MockData.SearchFilter(seed, searchTerm)|;
    assert currentPage * limit == offset + limit;
    assert RangeStart(currentPage, limit) == offset + 1;
  }
}
