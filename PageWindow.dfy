/**
 * The row of page-number buttons under the results: at most five
 * consecutive page numbers, centred on the current page except near the
 * first and the last page, where the row is pinned to the boundary.
 */
module PageWindow {

  const MaxPagesToShow: int := 5

  function Min(a: int, b: int): int { if a <= b then a else b }
  function Max(a: int, b: int): int { if a >= b then a else b }

  /**
   * The first and last page number of the row for `page` out of
   * `totalPages`: the clamp arithmetic before the loop. The start is at
   * least 1 and the end at most `totalPages` (with no pages the row is
   * empty, 1 > 0), the row has at most five pages, and a current
   * page inside [1, totalPages] lies inside it with the row as long as
   * the number of pages allows.
   */
  function WindowBounds(page: int, totalPages: int): (b: (int, int))
    ensures 1 <= b.0 && b.1 <= totalPages
    ensures b.1 - b.0 < MaxPagesToShow
    ensures 1 <= page <= totalPages ==> b.0 <= page <= b.1
    ensures 1 <= page <= totalPages ==> b.1 - b.0 + 1 == Min(MaxPagesToShow, totalPages)
  {
    var half := MaxPagesToShow / 2;
    var start := Max(1, page - half);
    var end := Min(totalPages, page + half);
    if page <= half then (start, Min(totalPages, MaxPagesToShow))
    else if page + half >= totalPages then (Max(1, totalPages - MaxPagesToShow + 1), end)
    else (start, end)
  }

  /** The consecutive integers lo, lo + 1, ..., hi (empty when lo > hi). */
  function Range(lo: int, hi: int): (r: seq<int>)
    ensures |r| == if lo <= hi then hi - lo + 1 else 0
    ensures forall k | 0 <= k < |r| :: r[k] == lo + k
    decreases hi - lo
  {
    if lo > hi then [] else [lo] + Range(lo + 1, hi)
  }

  /**
   * The page numbers of the row, in the order the buttons appear. Every
   * button is a real page, there are at most five, they are consecutive,
   * and a current page in [1, totalPages] is among them, with the row as
   * long as the page count allows.
   */
  function Window(page: int, totalPages: int): (w: seq<int>)
    ensures forall x | x in w :: 1 <= x <= totalPages
    ensures |w| <= MaxPagesToShow
    ensures forall k | 0 <= k < |w| - 1 :: w[k + 1] == w[k] + 1
    ensures 1 <= page <= totalPages ==> page in w && |w| == Min(MaxPagesToShow, totalPages)
  {
    var b := WindowBounds(page, totalPages);
    var w := Range(b.0, b.1);
    assert 1 <= page <= totalPages ==> w[page - b.0] == page;
    w
  }

  /** The loop of `renderPageNumbers`: pushes every page number from start to end. */
  method PageNumbers(page: int, totalPages: int) returns (pages: seq<int>)
    ensures pages == Window(page, totalPages)
  {
    var half := MaxPagesToShow / 2;
    var startPage := Max(1, page - half);
    var endPage := Min(totalPages, page + half);
    if page <= half {
      endPage := Min(totalPages, MaxPagesToShow);
    } else if page + half >= totalPages {
      startPage := Max(1, totalPages - MaxPagesToShow + 1);
    }
    pages := [];
    var i := startPage;
    while i <= endPage
      invariant startPage <= i <= Max(startPage, endPage + 1)
      invariant |pages| == i - startPage
      invariant forall k | 0 <= k < |pages| :: pages[k] == startPage + k
    {
      pages := pages + [i];
      i := i + 1;
    }
    assert (startPage, endPage) == WindowBounds(page, totalPages);
  }

  /** Away from both ends the row is centred: two pages either side of the current one. */
  lemma WindowCentred(page: int, totalPages: int)
    requires 3 <= page && page + 2 <= totalPages
    ensures Window(page, totalPages) == [page - 2, page - 1, page, page + 1, page + 2]
  {
  }

  /**
   * Near either end the row is pinned to that end: for the first three
   * pages it starts at page 1, for the last three it ends at the last
   * page. With `Window`'s length and consecutiveness and `WindowCentred`
   * this fixes the row for every page in range.
   */
  lemma WindowPinnedToEnds(page: int, totalPages: int)
    requires 1 <= page <= totalPages
    ensures var w := Window(page, totalPages);
      && (page <= 3 ==> w[0] == 1)
      && (page + 2 >= totalPages ==> w[|w| - 1] == totalPages)
  {
  }

  /** The rows for a few concrete positions. */
  lemma WindowExamples()
    ensures Window(3, 10) == [1, 2, 3, 4, 5]
    ensures Window(10, 10) == [6, 7, 8, 9, 10]
    ensures Window(5, 10) == [3, 4, 5, 6, 7]
    ensures Window(1, 3) == [1, 2, 3]
    ensures Window(1, 0) == []
  {
    assert WindowBounds(3, 10) == (1, 5);
    assert WindowBounds(10, 10) == (6, 10);
    assert WindowBounds(5, 10) == (3, 7);
    assert WindowBounds(1, 3) == (1, 3);
  }

  /** The Previous button is disabled on page 1. */
  predicate PreviousDisabled(page: int)
  {
    page == 1
  }

  /** The Next button is disabled exactly when the current page equals the page count. */
  predicate NextDisabled(page: int, totalPages: int)
  {
    page == totalPages
  }

  /**
   * From a page of at least 1, every button leads to a page of at least 1:
   * Previous is disabled on page 1, Next adds one, and every number in the
   * row is at least 1.
   */
  lemma ButtonsStayOnPositivePages(page: int, totalPages: int)
    requires page >= 1
    ensures !PreviousDisabled(page) ==> page - 1 >= 1
    ensures page + 1 >= 1
    ensures forall x | x in Window(page, totalPages) :: x >= 1
  {
  }

  /**
   * Next is disabled only on the exact last page. With no pages (a blank
   * or empty result) it stays enabled on page 1 and leads to page 2,
   * outside [1, totalPages]; the same holds on any page beyond the count.
   */
  lemma NextEnabledPastLastPage(page: int, totalPages: int)
    requires page > totalPages
    ensures !NextDisabled(page, totalPages)
    ensures !NextDisabled(1, 0) && Window(2, 0) == []
  {
  }
}
