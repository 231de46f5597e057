/** The arithmetic of the listing page: which rows a page asks the backend
    for, how many pages there are, and where Previous and Next lead. */
module Pagination {

  /** `PAGE_SIZE`: rows shown per page. */
  const PAGE_SIZE: nat := 5

  /** An inclusive range of row offsets, as passed to `.range(from, to)`. */
  datatype RowRange = RowRange(from: int, to: int)

  predicate Contains(w: RowRange, row: int)
  {
    w.from <= row <= w.to
  }

  /** The range `fetchBlogs(pageToFetch)` requests: it holds exactly
      PAGE_SIZE offsets, and for a page numbered from 1 it starts at 0 or
      later. */
  function PageRange(pageToFetch: int): (w: RowRange)
    ensures w.to - w.from + 1 == PAGE_SIZE
    ensures pageToFetch >= 1 ==> w.from >= 0
    ensures pageToFetch == 1 ==> w.from == 0
  {
    var from := (pageToFetch - 1) * PAGE_SIZE;
    RowRange(from, from + PAGE_SIZE - 1)
  }

  /** Consecutive pages ask for adjacent ranges: page p + 1 starts right
      after page p ends. */
  lemma RangesAdjacent(p: int)
    ensures PageRange(p + 1).from == PageRange(p).to + 1
  {
  }

  /** The page whose range holds a given row offset. */
  function PageOfRow(row: nat): (p: int)
    ensures p >= 1 && Contains(PageRange(p), row)
  {
    row / PAGE_SIZE + 1
  }

  /** Ranges of different pages are disjoint: a row offset lies in the range
      of one page only. */
  lemma RowOnOnePage(row: nat, p: int)
    requires Contains(PageRange(p), row)
    ensures p == PageOfRow(row)
  {
  }

  /** `Math.ceil(n / d)` for a non-negative count and a positive divisor. */
  function CeilDiv(n: nat, d: nat): nat
    requires d > 0
  {
    (n + d - 1) / d
  }

  /** `totalPages = max(ceil(totalCount / PAGE_SIZE), 1)`: there is always a
      page, the pages hold every row, and when there are rows the last page
      is not empty. */
  function TotalPages(totalCount: nat): (n: int)
    ensures n >= 1
    ensures totalCount <= n * PAGE_SIZE
    ensures totalCount > 0 ==> (n - 1) * PAGE_SIZE < totalCount
    ensures totalCount == 0 ==> n == 1
  {
    var c := CeilDiv(totalCount, PAGE_SIZE);
    if c > 1 then c else 1
  }

  /** Previous is disabled on page 1 and below; on a page numbered from 1
      that is page 1 alone. */
  function PreviousDisabled(page: int): (d: bool)
    ensures page >= 1 ==> (d <==> page == 1)
  {
    page <= 1
  }

  /** Next is disabled on the last page and beyond; on a page in range
      that is the last page alone. */
  function NextDisabled(page: int, totalPages: int): (d: bool)
    ensures page <= totalPages ==> (d <==> page == totalPages)
  {
    page >= totalPages
  }

  /** Where Previous leads, `max(page - 1, 1)`: never below page 1, never
      after the current page, and one page back whenever the button is
      enabled. */
  function PreviousTarget(page: int): (r: int)
    ensures r >= 1
    ensures page >= 1 ==> r <= page
    ensures !PreviousDisabled(page) ==> r == page - 1
  {
    if page - 1 > 1 then page - 1 else 1
  }

  /** Where Next leads, `min(page + 1, totalPages)`: never past the last
      page, never before the current page when that is in range, and one
      page on whenever the button is enabled. */
  function NextTarget(page: int, totalPages: int): (r: int)
    ensures r <= totalPages
    ensures page <= totalPages ==> page <= r
    ensures !NextDisabled(page, totalPages) ==> r == page + 1
  {
    if page + 1 < totalPages then page + 1 else totalPages
  }

  /** A page in range stays in range after Previous or Next. */
  lemma NavigationStaysInRange(page: int, totalCount: nat)
    requires 1 <= page <= TotalPages(totalCount)
    ensures 1 <= PreviousTarget(page) <= TotalPages(totalCount)
    ensures 1 <= NextTarget(page, TotalPages(totalCount)) <= TotalPages(totalCount)
  {
  }

  /** How many rows the range of page p selects from a table of
      `totalCount` rows: every page before the last is full, the last one
      holds the remainder, and a page past the last is empty. */
  function RowsOnPage(totalCount: nat, p: int): (k: nat)
    requires p >= 1
    ensures k <= PAGE_SIZE
    ensures p < TotalPages(totalCount) ==> k == PAGE_SIZE
    ensures p == TotalPages(totalCount) ==> k == totalCount - (p - 1) * PAGE_SIZE
    ensures p > TotalPages(totalCount) ==> k == 0
  {
    var w := PageRange(p);
    var end := if w.to + 1 < totalCount then w.to + 1 else totalCount;
    if end > w.from then end - w.from else 0
  }

  /** Rows selected by pages 1 to m together. */
  function RowsOnPages(totalCount: nat, m: nat): nat
  {
    if m == 0 then 0 else RowsOnPages(totalCount, m - 1) + RowsOnPage(totalCount, m)
  }

  /** Pages 1 to m together select the first m * PAGE_SIZE rows, or the
      whole table when it is smaller. */
  lemma {:induction false} RowsOnPagesPrefix(totalCount: nat, m: nat)
    ensures RowsOnPages(totalCount, m) == if m * PAGE_SIZE < totalCount then m * PAGE_SIZE else totalCount
  {
    if m > 0 {
      RowsOnPagesPrefix(totalCount, m - 1);
    }
  }

  /** Walking pages 1 to totalPages shows every row exactly once. */
  lemma {:induction false} PagesCoverAllRows(totalCount: nat)
    ensures RowsOnPages(totalCount, TotalPages(totalCount)) == totalCount
  {
    RowsOnPagesPrefix(totalCount, TotalPages(totalCount));
  }

  /** Two scenarios: an empty table has one empty page;
      twelve rows make three pages of 5, 5 and 2 rows. */
  lemma Scenarios()
    ensures TotalPages(0) == 1 && RowsOnPage(0, 1) == 0
    ensures TotalPages(12) == 3
    ensures RowsOnPage(12, 1) == 5 && RowsOnPage(12, 2) == 5 && RowsOnPage(12, 3) == 2
  {
  }
}
