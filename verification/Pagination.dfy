/** Page arithmetic: the page count, the current page, its slice, its tab and its numbers. */
module Pagination {
  import opened Optional

  /** The request's fields, `None` where they do not parse as numbers. */
  datatype Request = Request(
    allSearch: string,
    totalCount: Option<int>,
    page: Option<int>,
    size: Option<int>,
    pageSize: Option<int>)

  function OrElse(x: Option<int>, default: int): int {
    if x.Some? then x.value else default
  }

  /** Division rounded down, and the remainder with the sign of the dividend. */
  function FloorDiv(a: int, b: int): int
    requires b != 0
  {
    if b > 0 then a / b else (-a) / (-b)
  }

  function TruncRem(a: int, b: int): int
    requires b != 0
  {
    var m := if b > 0 then b else -b;
    if a >= 0 then a % m else -((-a) % m)
  }

  predicate IsAll(r: Request) {
    r.allSearch == "Y"
  }

  /** What the constructor leaves behind. */
  datatype Layout = Layout(
    all: bool,
    totalCount: int,
    size: int,
    page: int,
    maxPage: int,
    limit: int,
    offset: int,
    tabStart: int,
    tabEnd: int)

  /** A list of `total` rows in pages of at most `size`, at least one page: the last page is
      the one that reaches the end. */
  predicate IsLastPage(total: int, size: int, maxPage: int) {
    && maxPage >= 1
    && total <= maxPage * size
    && (maxPage > 1 ==> (maxPage - 1) * size < total)
  }

  /** A wanted page that exists is the page; before the first it is the first, past the last
      the last. */
  predicate IsPage(wanted: int, maxPage: int, page: int) {
    && (1 <= wanted <= maxPage ==> page == wanted)
    && (wanted < 1 ==> page == 1)
    && (wanted > maxPage && maxPage >= 1 ==> page == maxPage)
  }

  /** The layout a well-formed request asks for, said without the arithmetic: `page` is the
      wanted page moved into range, and its tab is the aligned block of pages around it. */
  predicate LaysOut(r: Request, x: Layout)
    requires OrElse(r.pageSize, 10) >= 1
  {
    var total, pageSize := OrElse(r.totalCount, 1), OrElse(r.pageSize, 10);
    var wanted := if IsAll(r) then 1 else OrElse(r.page, 1);
    && x.all == IsAll(r) && x.totalCount == total
    && x.size == (if IsAll(r) then total else OrElse(r.size, 20))
    && (if IsAll(r) then x.maxPage == 1 else IsLastPage(total, x.size, x.maxPage))
    && IsPage(wanted, x.maxPage, x.page)
    && x.limit == x.size && x.offset == (x.page - 1) * x.size
    && (x.tabStart - 1) % pageSize == 0 && x.tabStart <= x.page < x.tabStart + pageSize
    && x.tabEnd == (if x.tabStart + pageSize - 1 > x.maxPage then x.maxPage else x.tabStart + pageSize - 1)
  }

  /** No negative total, at least one tab per block, and at least one row per page unless all
      rows are asked for, when the page size does not matter. */
  predicate WellFormed(r: Request) {
    OrElse(r.totalCount, 1) >= 0 && OrElse(r.pageSize, 10) >= 1 && (IsAll(r) || OrElse(r.size, 20) >= 1)
  }

  lemma MultipleBounds(k: int, n: int)
    requires n >= 1
    ensures k >= 1 ==> k * n >= n
    ensures k <= -1 ==> k * n <= -n
  {
  }

  /** The quotient rounded up, or 1 when it is 0, is the last page. */
  lemma QuotientIsLastPage(total: int, size: int)
    requires total >= 0 && size >= 1
    ensures var pages := FloorDiv(total, size) + (if TruncRem(total, size) > 0 then 1 else 0);
      IsLastPage(total, size, if pages == 0 then 1 else pages)
  {
    var q, m := total / size, total % size;
    assert total == q * size + m;
    assert (q + 1) * size == q * size + size;
    assert (q - 1) * size == q * size - size;
    MultipleBounds(q, size);
  }

  /** The page rounded up to a multiple of the tab size ends the page's tab. */
  lemma RoundedUpEndsTab(page: int, pageSize: int)
    requires page >= 1 && pageSize >= 1
    ensures var end := (FloorDiv(page, pageSize) + (if TruncRem(page, pageSize) > 0 then 1 else 0)) * pageSize;
      end - pageSize < page <= end && (end - pageSize) % pageSize == 0
  {
    var q, m := page / pageSize, page % pageSize;
    assert page == q * pageSize + m;
    assert (q + 1) * pageSize == q * pageSize + pageSize;
    var k := if m > 0 then q else q - 1;
    assert k * pageSize == (if m > 0 then q * pageSize else q * pageSize - pageSize);
    MultipleHasNoRemainder(k, pageSize);
  }

  lemma MultipleHasNoRemainder(k: int, n: int)
    requires n >= 1
    ensures (k * n) % n == 0
  {
    var q, m := (k * n) / n, (k * n) % n;
    assert k * n == q * n + m;
    assert (k - q) * n == m;
    MultipleBounds(k - q, n);
  }

  class Pagination {
    var allSearch: string
    var size: int
    var pageSize: int
    var totalCount: int
    var page: int
    var maxPage: int
    var rangeStart: int
    var rangeEnd: int
    var limit: int
    var offset: int

    function Here(): Layout
      reads this
    {
      Layout(allSearch == "Y", totalCount, size, page, maxPage, limit, offset, rangeStart, rangeEnd)
    }

    /** The slice is that of the current page. */
    predicate Valid()
      reads this
    {
      limit == size && offset == (page - 1) * size
    }

    constructor (r: Request)
      requires (IsAll(r) || OrElse(r.size, 20) != 0) && OrElse(r.pageSize, 10) != 0
      ensures Valid() && (WellFormed(r) ==> LaysOut(r, Here()))
    {
      allSearch := if r.allSearch == "Y" || r.allSearch == "N" then r.allSearch else "N";
      totalCount := if r.totalCount.Some? then r.totalCount.value else 1;
      page := if r.page.Some? then r.page.value else 1;
      size := if r.size.Some? then r.size.value else 20;
      pageSize := if r.pageSize.Some? then r.pageSize.value else 10;
      new;
      hide FloorDiv, TruncRem, IsLastPage;
      SetPages();
      SetRange();
    }

    /** The page count, the current page within it, and the slice of the list. */
    method SetPages()
      requires allSearch == "Y" || size != 0
      modifies this`size, this`page, this`maxPage, this`limit, this`offset
      ensures totalCount >= 0 && (allSearch == "Y" || old(size) >= 1) ==>
        && size == (if allSearch == "Y" then totalCount else old(size))
        && (if allSearch == "Y" then maxPage == 1 else IsLastPage(totalCount, size, maxPage))
        && IsPage(if allSearch == "Y" then 1 else old(page), maxPage, page) && page >= 1
      ensures Valid()
    {
      hide FloorDiv, TruncRem, IsLastPage;
      if totalCount >= 0 && size >= 1 {
        QuotientIsLastPage(totalCount, size);
        OnePageAtLeast();
      }
      if page <= 0 {
        page := 1;
      }
      if size != 0 {
        // the quotient by zero is not finite; an all-search request overwrites it below
        maxPage := FloorDiv(totalCount, size);
        if TruncRem(totalCount, size) > 0 {
          maxPage := maxPage + 1;
        }
      }
      if allSearch == "Y" {
        page := 1;
        maxPage := 1;
        size := totalCount;
      }
      if maxPage == 0 {
        maxPage := 1;
      }
      if page > maxPage {
        page := maxPage;
      }
      limit := size;
      offset := (page - 1) * size;
    }

    /** The tab around the current page. */
    method SetRange()
      requires pageSize != 0
      modifies this`rangeStart, this`rangeEnd
      ensures page >= 1 && pageSize >= 1 ==>
        && (rangeStart - 1) % pageSize == 0 && rangeStart <= page < rangeStart + pageSize
        && rangeEnd == (if rangeStart + pageSize - 1 > maxPage then maxPage else rangeStart + pageSize - 1)
    {
      hide FloorDiv, TruncRem;
      if page >= 1 && pageSize >= 1 {
        RoundedUpEndsTab(page, pageSize);
      }
      rangeEnd := FloorDiv(page, pageSize);
      if TruncRem(page, pageSize) > 0 {
        rangeEnd := rangeEnd + 1;
      }
      rangeEnd := rangeEnd * pageSize;
      rangeStart := rangeEnd - (pageSize - 1);
      if rangeEnd > maxPage {
        rangeEnd := maxPage;
      }
    }

    /** The numbers shown beside the page's first row, counting down and counting up: one past
        the rows skipped, and the two together one past the total. */
    method GetPagination() returns (down: int, up: int)
      requires Valid()
      ensures up == offset + 1 && down + up == totalCount + 1
    {
      down := totalCount - (page - 1) * size;
      up := 1 + (page - 1) * size;
    }
  }

  lemma OnePageAtLeast()
    ensures forall total, size, n :: IsLastPage(total, size, n) ==> n >= 1
  {
  }

  // ---------------------------------------------------------------- pages tile the list

  function Min(a: int, b: int): int {
    if a < b then a else b
  }

  /** The rows a query with this limit and offset returns. */
  function Slice<T>(rows: seq<T>, limit: int, offset: int): seq<T>
    requires 0 <= limit && 0 <= offset
  {
    rows[Min(offset, |rows|)..Min(offset + limit, |rows|)]
  }

  /** The slices of pages 1 to `n`, one after another. */
  function Pages<T>(rows: seq<T>, size: nat, n: nat): seq<T> {
    if n == 0 then [] else Pages(rows, size, n - 1) + Slice(rows, size, (n - 1) * size)
  }

  lemma {:induction false} PagesArePrefix<T>(rows: seq<T>, size: nat, n: nat)
    ensures Pages(rows, size, n) == rows[..Min(n * size, |rows|)]
  {
    if n > 0 {
      PagesArePrefix(rows, size, n - 1);
      assert n * size == (n - 1) * size + size;
    } else {
      assert n * size == 0;
    }
  }

  lemma OffsetIsNatural(r: Request, x: Layout)
    requires WellFormed(r) && LaysOut(r, x)
    ensures x.size >= 0 && x.maxPage >= 1 && x.offset >= 0
    ensures x.totalCount <= x.maxPage * x.size
  {
    if IsAll(r) {
      assert x.maxPage * x.size == x.totalCount;
    }
    assert 1 <= x.page <= x.maxPage;
    NonNegativeProduct(x.page - 1, x.size);
  }

  lemma NonNegativeProduct(a: int, b: int)
    requires a >= 0 && b >= 0
    ensures a * b >= 0
  {
  }

  /** The request for a page serves that page whenever it exists, the first for any earlier and
      the last for any later number; its slice starts after the rows of the pages before. */
  lemma PageIsServed(r: Request, x: Layout, k: int)
    requires WellFormed(r) && !(r.allSearch == "Y") && r.page == Some(k) && LaysOut(r, x)
    ensures 1 <= k <= x.maxPage ==> x.page == k && x.offset == (k - 1) * x.size
    ensures k < 1 ==> x.page == 1 && x.offset == 0
    ensures k > x.maxPage ==> x.page == x.maxPage && x.offset == (x.maxPage - 1) * x.size
    ensures x.limit == x.size == OrElse(r.size, 20)
  {
  }

  /** The layouts of the requests for pages 1, 2, ... up to the last. */
  predicate LayOutAllPages(r: Request, layouts: seq<Layout>)
    requires OrElse(r.pageSize, 10) >= 1
  {
    && |layouts| > 0 && |layouts| == layouts[0].maxPage
    && forall k | 0 <= k < |layouts| :: LaysOut(r.(page := Some(k + 1)), layouts[k])
  }

  /** The rows those layouts show, one after another. */
  function Shown<T>(rows: seq<T>, layouts: seq<Layout>): seq<T>
    requires forall x | x in layouts :: x.limit >= 0 && x.offset >= 0
  {
    if layouts == [] then []
    else
      var last := layouts[|layouts| - 1];
      assert last in layouts;
      Shown(rows, layouts[..|layouts| - 1]) + Slice(rows, last.limit, last.offset)
  }

  lemma LayoutOfPage(r: Request, layouts: seq<Layout>, k: nat)
    requires WellFormed(r) && LayOutAllPages(r, layouts) && k < |layouts|
    ensures layouts[k].maxPage == |layouts| && layouts[k].size == layouts[0].size >= 0 && layouts[k].page == k + 1
    ensures layouts[k].limit == layouts[k].size && layouts[k].offset == k * layouts[k].size >= 0
    ensures layouts[k].totalCount <= |layouts| * layouts[k].size
  {
    hide IsLastPage;
    var x, first := layouts[k], layouts[0];
    if !IsAll(r) {
      LastPageIsUnique(first.totalCount, first.size, first.maxPage, x.maxPage);
    }
    OffsetIsNatural(r.(page := Some(k + 1)), x);
  }

  lemma {:induction false} ShownIsPages<T>(rows: seq<T>, layouts: seq<Layout>, size: nat)
    requires forall k | 0 <= k < |layouts| ::
      layouts[k].limit == size && layouts[k].offset == k * size && layouts[k].offset >= 0
    ensures forall x | x in layouts :: x.limit >= 0 && x.offset >= 0
    ensures Shown(rows, layouts) == Pages(rows, size, |layouts|)
  {
    hide Slice;
    forall x | x in layouts ensures x.limit >= 0 && x.offset >= 0 {
      var k :| 0 <= k < |layouts| && layouts[k] == x;
    }
    if layouts != [] {
      var n := |layouts| - 1;
      var front := layouts[..n];
      assert forall k | 0 <= k < n :: front[k] == layouts[k];
      ShownIsPages(rows, front, size);
      assert layouts[n].limit == size && layouts[n].offset == n * size;
    }
  }

  /** The pages from the first to the last, each asked for on its own, show exactly the whole
      list, one after another: page `k` is served with the rows from (k - 1) * size on. */
  lemma PagesTileTheList<T>(rows: seq<T>, r: Request, layouts: seq<Layout>)
    requires WellFormed(r) && r.totalCount == Some(|rows|) && LayOutAllPages(r, layouts)
    ensures forall x | x in layouts :: x.limit >= 0 && x.offset >= 0
    ensures forall k | 0 <= k < |layouts| :: layouts[k].page == k + 1 && layouts[k].offset == k * layouts[k].size
    ensures Shown(rows, layouts) == rows
  {
    hide LayOutAllPages, Shown, Slice;
    TotalIsAsked(r, layouts);
    var size := layouts[0].size;
    forall k: nat | k < |layouts|
      ensures layouts[k].page == k + 1 && layouts[k].limit == size && layouts[k].offset == k * size >= 0
      ensures layouts[k].size == size
    {
      LayoutOfPage(r, layouts, k);
    }
    LayoutOfPage(r, layouts, 0);
    ShownIsPages(rows, layouts, size);
    PagesArePrefix(rows, size, |layouts|);
  }

  lemma TotalIsAsked(r: Request, layouts: seq<Layout>)
    requires WellFormed(r) && LayOutAllPages(r, layouts) && r.totalCount.Some?
    ensures |layouts| > 0 && layouts[0].totalCount == r.totalCount.value
  {
  }

  /** A request without any number gets one page of twenty of a list of one row, and tabs of ten. */
  lemma DefaultLayout(allSearch: string, x: Layout)
    requires allSearch != "Y" && LaysOut(Request(allSearch, None, None, None, None), x)
    ensures x == Layout(false, 1, 20, 1, 1, 20, 0, 1, 1)
  {
    var r := Request(allSearch, None, None, None, None);
    LastPageIsUnique(1, 20, x.maxPage, 1);
    AlignedBlocksAreDisjoint(x.tabStart - 1, 0, 10, 1);
  }

  /** Beside row `j` of a page the two counts show how many rows are left and how many were
      passed: over the whole list each row has one number of each kind, adding up to total + 1. */
  lemma RowNumbers(r: Request, x: Layout, down: int, up: int, j: nat)
    requires WellFormed(r) && LaysOut(r, x) && j < x.size && x.offset + j < x.totalCount
    requires up == x.offset + 1 && down + up == x.totalCount + 1
    ensures var row := x.offset + j;
      && up + j == row + 1 && down - j == x.totalCount - row
      && (up + j) + (down - j) == x.totalCount + 1
      && 1 <= up + j <= x.totalCount && 1 <= down - j <= x.totalCount
  {
    OffsetIsNatural(r, x);
  }

  // ---------------------------------------------------------------- tabs tile the pages

  lemma AlignedBlocksAreDisjoint(a: int, b: int, n: int, page: int)
    requires n >= 1 && a % n == 0 && b % n == 0
    requires a < page <= a + n && b < page <= b + n
    ensures a == b
  {
    var p, q := a / n, b / n;
    assert a == p * n && b == q * n;
    assert a - b == (p - q) * n;
    MultipleBounds(p - q, n);
  }

  /** The current page lies in its tab, tabs stay within the pages, and any page of a tab is
      shown with that same tab: the tabs tile the pages. */
  lemma TabsTileThePages(r: Request, x: Layout, r2: Request, y: Layout)
    requires WellFormed(r) && LaysOut(r, x) && WellFormed(r2) && LaysOut(r2, y)
    requires OrElse(r.pageSize, 10) == OrElse(r2.pageSize, 10) && x.maxPage == y.maxPage
    ensures 1 <= x.tabStart <= x.page <= x.tabEnd <= x.maxPage
    ensures x.tabStart <= y.page <= x.tabEnd <==> (x.tabStart, x.tabEnd) == (y.tabStart, y.tabEnd)
  {
    var n := OrElse(r.pageSize, 10);
    TabStartsAtOneOrLater(x.tabStart, x.page, n);
    if x.tabStart <= y.page <= x.tabEnd {
      AlignedBlocksAreDisjoint(x.tabStart - 1, y.tabStart - 1, n, y.page);
    }
  }

  lemma TabStartsAtOneOrLater(start: int, page: int, n: int)
    requires n >= 1 && page >= 1 && (start - 1) % n == 0 && start <= page < start + n
    ensures start >= 1
  {
    var k := (start - 1) / n;
    assert start - 1 == k * n;
    MultipleBounds(k, n);
  }

  /** A request for everything gets one page that is the whole list. */
  lemma AllSearchIsOnePage<T>(rows: seq<T>, r: Request, x: Layout)
    requires WellFormed(r) && r.allSearch == "Y" && r.totalCount == Some(|rows|) && LaysOut(r, x)
    ensures x.page == 1 && x.maxPage == 1 && x.limit >= 0 && x.offset >= 0 && Slice(rows, x.limit, x.offset) == rows
  {
    assert x.offset == 0;
  }

  /** A well-formed request has only one layout: the description leaves nothing open. */
  lemma LayoutIsUnique(r: Request, x: Layout, y: Layout)
    requires WellFormed(r) && LaysOut(r, x) && LaysOut(r, y)
    ensures x == y
  {
    hide IsLastPage;
    OffsetIsNatural(r, x);
    OffsetIsNatural(r, y);
    if !IsAll(r) {
      LastPageIsUnique(x.totalCount, x.size, x.maxPage, y.maxPage);
    }
    AlignedBlocksAreDisjoint(x.tabStart - 1, y.tabStart - 1, OrElse(r.pageSize, 10), x.page);
  }

  lemma LastPageIsUnique(total: int, size: int, a: int, b: int)
    requires size >= 1 && IsLastPage(total, size, a) && IsLastPage(total, size, b)
    ensures a == b
  {
    assert (b - 1 - a) * size == (b - 1) * size - a * size;
    assert (a - 1 - b) * size == (a - 1) * size - b * size;
    MultipleBounds(b - 1 - a, size);
    MultipleBounds(a - 1 - b, size);
  }
}
