/**
 * List metadata: its normal form, the window of rows that a page shows, and
 * the loop that collects pages (apps/portal/src/lib/list-meta.ts:5-19, 54-146).
 */
module ListPaging {
  import opened Options

  const PORTAL_DEFAULT_PAGE_SIZE := 20

  datatype Mode = PageMode | CursorMode

  datatype Sort = Sort(column: string, ascending: bool)

  datatype Capabilities = Capabilities(randomAccess: bool, sortableFields: seq<string>)

  datatype PartialCapabilities = PartialCapabilities(randomAccess: Option<bool>, sortableFields: Option<seq<string>>)

  datatype ListMeta = ListMeta(
    nextCursor: Option<string>, total: int, totalIsEstimate: bool, page: Option<int>, limit: int,
    totalPages: Option<int>, hasMore: bool, mode: Mode, capabilities: Capabilities, sort: Option<Sort>)

  /** None stands for null and for undefined. */
  datatype PartialMeta = PartialMeta(
    nextCursor: Option<string>, total: Option<int>, totalIsEstimate: Option<bool>, page: Option<int>,
    limit: Option<int>, totalPages: Option<int>, hasMore: Option<bool>, mode: Option<Mode>,
    capabilities: Option<PartialCapabilities>, sort: Option<Sort>)

  const NOTHING := PartialMeta(None, None, None, None, None, None, None, None, None, None)

  const EMPTY_LIST_META := ListMeta(None, 0, false, None, PORTAL_DEFAULT_PAGE_SIZE, None, false, CursorMode,
                                    Capabilities(false, []), None)

  function Or<T>(value: Option<T>, fallback: T): T {
    if value.Some? then value.value else fallback
  }

  function Max(a: int, b: int): int {
    if a < b then b else a
  }

  function Min(a: int, b: int): int {
    if a < b then a else b
  }

  /** Math.ceil(n / d) */
  function CeilDiv(n: int, d: int): (q: int)
    requires d > 0
  {
    -((-n) / d)
  }

  function NormalizeListMeta(input: Option<PartialMeta>, dataLength: int, limitFallback: Option<int>): ListMeta {
    var m := Or(input, NOTHING);
    var limit := Or(m.limit, Or(limitFallback, PORTAL_DEFAULT_PAGE_SIZE));
    var total := Or(m.total, dataLength);
    var totalPages := if m.totalPages.Some? then m.totalPages
                      else if m.page.Some? && limit > 0 then Some(Max(1, CeilDiv(total, limit))) else None;
    var mode := Or(m.mode, if m.page.Some? then PageMode else CursorMode);
    var capabilities := Or(m.capabilities, PartialCapabilities(Some(mode == PageMode), Some([])));
    ListMeta(m.nextCursor, total, Or(m.totalIsEstimate, false), m.page, limit, totalPages,
             Or(m.hasMore, m.nextCursor.Some?), mode,
             Capabilities(Or(capabilities.randomAccess, mode == PageMode), Or(capabilities.sortableFields, [])), m.sort)
  }

  function AsPartial(m: ListMeta): PartialMeta {
    var capabilities := PartialCapabilities(Some(m.capabilities.randomAccess), Some(m.capabilities.sortableFields));
    PartialMeta(m.nextCursor, Some(m.total), Some(m.totalIsEstimate), m.page, Some(m.limit), m.totalPages,
                Some(m.hasMore), Some(m.mode), Some(capabilities), m.sort)
  }

  /** Normal metadata stays as it is, whatever fallbacks a second call has. */
  lemma NormalizeIdempotent(input: Option<PartialMeta>, dataLength: int, limit: Option<int>, laterLength: int,
                            laterLimit: Option<int>)
    ensures var once := NormalizeListMeta(input, dataLength, limit);
            NormalizeListMeta(Some(AsPartial(once)), laterLength, laterLimit) == once
  {
    var once := NormalizeListMeta(input, dataLength, limit);
    var twice := NormalizeListMeta(Some(AsPartial(once)), laterLength, laterLimit);
    assert twice.capabilities == once.capabilities && twice.totalPages == once.totalPages;
  }

  /** What was said about capabilities stays; otherwise only page mode has random access, and nothing can be sorted. */
  lemma CapabilitiesSaid(m: PartialMeta, dataLength: int, limit: Option<int>)
    ensures var n, said := NormalizeListMeta(Some(m), dataLength, limit), m.capabilities;
            && (said.Some? && said.value.randomAccess.Some? ==>
                  n.capabilities.randomAccess == said.value.randomAccess.value)
            && (said.Some? && said.value.sortableFields.Some? ==>
                  n.capabilities.sortableFields == said.value.sortableFields.value)
            && (said.None? || said.value.randomAccess.None? ==> n.capabilities.randomAccess == n.mode.PageMode?)
            && (said.None? || said.value.sortableFields.None? ==> n.capabilities.sortableFields == [])
            && (m.mode.None? ==> (n.mode.PageMode? <==> m.page.Some?))
  {
  }

  // ---- Windows --------------------------------------------------------------------------------

  datatype Window = Window(first: int, last: int)

  function ListPageWindow(page: Option<int>, limit: int, total: int): Window {
    var p := Or(page, 1);
    if total <= 0 || limit <= 0 then Window(0, 0) else Window((p - 1) * limit + 1, Min(p * limit, total))
  }

  predicate InWindow(w: Window, row: int) {
    w.first <= row <= w.last
  }

  lemma CeilBounds(n: int, d: int)
    requires d > 0
    ensures (CeilDiv(n, d) - 1) * d < n <= CeilDiv(n, d) * d
  {
    var q := (-n) / d;
    assert -n == q * d + (-n) % d;
    assert (CeilDiv(n, d) - 1) * d == -(q * d) - d;
  }

  lemma MultipleBefore(a: int, b: int, d: int)
    requires d > 0 && a < b
    ensures a * d <= (b - 1) * d
  {
    var k := b - 1 - a;
    Distribute(a, k, d);
    assert a + k == b - 1 && 0 <= k * d;
  }

  lemma Distribute(a: int, k: int, d: int)
    ensures (a + k) * d == a * d + k * d
  {
  }

  /**
   * The first page starts at row 1, the last page ends at the total, and between
   * them each page starts where the one before ended.
   */
  lemma WindowsTile(limit: int, total: int, p: int)
    requires limit > 0 && total > 0 && 1 <= p <= CeilDiv(total, limit)
    ensures var w := ListPageWindow(Some(p), limit, total);
            && 1 <= w.first <= w.last <= total
            && (p == 1 ==> w.first == 1)
            && (p == CeilDiv(total, limit) ==> w.last == total)
            && (p < CeilDiv(total, limit) ==>
                w.last == p * limit && ListPageWindow(Some(p + 1), limit, total).first == w.last + 1)
  {
    CeilBounds(total, limit);
    var pages := CeilDiv(total, limit);
    MultipleBefore(p - 1, pages, limit);
    MultipleBefore(0, p, limit);
    assert p * limit == (p - 1) * limit + limit;
    if p < pages {
      MultipleBefore(p, pages, limit);
    }
  }

  lemma PagesExist(limit: int, total: int)
    requires limit > 0 && total > 0
    ensures CeilDiv(total, limit) >= 1
  {
    CeilBounds(total, limit);
    if CeilDiv(total, limit) <= 0 {
      MultipleBefore(CeilDiv(total, limit), 1, limit);
    }
  }

  /** An empty list, or pages without rows, show nothing. */
  lemma NothingShown(page: Option<int>, limit: int, total: int, row: int)
    requires limit <= 0 || total <= 0
    ensures InWindow(ListPageWindow(page, limit, total), row) <==> row == 0
  {
  }

  /** Every row of the list is shown by exactly one page, and no page shows any other row. */
  lemma RowInOneWindow(limit: int, total: int, row: int, p: int)
    requires limit > 0 && total > 0 && p >= 1
    ensures InWindow(ListPageWindow(Some(p), limit, total), row) <==> 1 <= row <= total && p == CeilDiv(row, limit)
    ensures 1 <= row <= total ==> 1 <= CeilDiv(row, limit) <= CeilDiv(total, limit)
  {
    var q := CeilDiv(row, limit);
    CeilBounds(row, limit);
    assert (p - 1) * limit == p * limit - limit && (q - 1) * limit == q * limit - limit;
    if p < q {
      MultipleBefore(p, q, limit);
    } else if q < p {
      MultipleBefore(q, p, limit);
    }
    MultipleBefore(0, p, limit);
    if 1 <= row <= total {
      PagesExist(limit, row);
      CeilBounds(total, limit);
      if CeilDiv(total, limit) < q {
        MultipleBefore(CeilDiv(total, limit), q, limit);
      }
    }
  }

  /** The page count of normal metadata is the number of the page that shows the last row. */
  lemma TotalPagesIsLastWindow(m: PartialMeta, dataLength: int, fallback: Option<int>)
    requires m.page.Some? && m.totalPages.None?
    ensures var n := NormalizeListMeta(Some(m), dataLength, fallback);
            && (n.limit > 0 && n.total > 0 ==>
                  n.totalPages.Some? && n.totalPages.value >= 1
                  && InWindow(ListPageWindow(n.totalPages, n.limit, n.total), n.total))
            && (n.limit > 0 && n.total <= 0 ==> n.totalPages == Some(1))
  {
    var n := NormalizeListMeta(Some(m), dataLength, fallback);
    if n.limit > 0 && n.total > 0 {
      PagesExist(n.limit, n.total);
      RowInOneWindow(n.limit, n.total, n.total, n.totalPages.value);
    } else if n.limit > 0 {
      CeilBounds(n.total, n.limit);
      if CeilDiv(n.total, n.limit) > 1 {
        MultipleBefore(1, CeilDiv(n.total, n.limit), n.limit);
      }
    }
  }

  // ---- Collecting pages -----------------------------------------------------------------------

  datatype Response<+T> = Response(data: seq<T>, meta: Option<PartialMeta>)

  const DEFAULT_MAX_PAGES := 50

  function MetaOf<T>(r: Response<T>, limit: Option<int>): ListMeta {
    NormalizeListMeta(r.meta, |r.data|, limit)
  }

  /** The rows of the pages from `page` on: up to the first page that has no more, and up to maxPages. */
  function Gathered<T>(fetch: int -> Response<T>, page: int, maxPages: int, limit: Option<int>): seq<T>
    decreases maxPages - page
  {
    if page > maxPages then []
    else fetch(page).data
         + if MetaOf(fetch(page), limit).hasMore then Gathered(fetch, page + 1, maxPages, limit) else []
  }

  function LastMeta<T>(fetch: int -> Response<T>, page: int, maxPages: int, limit: Option<int>,
                       before: ListMeta): ListMeta
    decreases maxPages - page
  {
    if page > maxPages then before
    else
      var meta := MetaOf(fetch(page), limit);
      if meta.hasMore then LastMeta(fetch, page + 1, maxPages, limit, meta) else meta
  }

  /** The metadata of the collected list. */
  function Closing(last: ListMeta, count: nat): ListMeta {
    var total := if last.total > 0 then last.total else count;
    last.(page := Some(Or(last.page, 1)), hasMore := false, total := total,
          totalPages := if last.limit > 0 then Some(Max(1, CeilDiv(total, last.limit))) else last.totalPages)
  }

  datatype Collected<+T> = Collected(data: seq<T>, meta: ListMeta)

  /** What the loop holds already and what it still has to gather make up the whole list and its metadata. */
  ghost predicate Gathering<T>(fetch: int -> Response<T>, maxPages: int, limit: Option<int>, all: seq<T>,
                               lastMeta: ListMeta, page: int, more: bool, whole: seq<T>, wholeMeta: ListMeta)
  {
    && all + (if more then Gathered(fetch, page, maxPages, limit) else []) == whole
    && (if more then LastMeta(fetch, page, maxPages, limit, lastMeta) else lastMeta) == wholeMeta
  }

  lemma OnePage<T>(fetch: int -> Response<T>, maxPages: int, limit: Option<int>, page: int, before: ListMeta,
                   meta: ListMeta)
    requires page <= maxPages && meta == MetaOf(fetch(page), limit)
    ensures Gathered(fetch, page, maxPages, limit)
            == fetch(page).data + if meta.hasMore then Gathered(fetch, page + 1, maxPages, limit) else []
    ensures LastMeta(fetch, page, maxPages, limit, before)
            == if meta.hasMore then LastMeta(fetch, page + 1, maxPages, limit, meta) else meta
  {
  }

  lemma Regroup<T>(a: seq<T>, b: seq<T>, c: seq<T>)
    ensures a + (b + c) == a + b + c
  {
  }

  lemma GatherPage<T>(fetch: int -> Response<T>, maxPages: int, limit: Option<int>, all: seq<T>, lastMeta: ListMeta,
                      page: int, whole: seq<T>, wholeMeta: ListMeta, meta: ListMeta)
    requires page <= maxPages && meta == MetaOf(fetch(page), limit)
    requires Gathering(fetch, maxPages, limit, all, lastMeta, page, true, whole, wholeMeta)
    ensures Gathering(fetch, maxPages, limit, all + fetch(page).data, meta,
                      if meta.hasMore then page + 1 else page, meta.hasMore, whole, wholeMeta)
  {
    OnePage(fetch, maxPages, limit, page, lastMeta, meta);
    Regroup(all, fetch(page).data, if meta.hasMore then Gathered(fetch, page + 1, maxPages, limit) else []);
  }

  method CollectListPages<T>(fetch: int -> Response<T>, maxPagesOption: Option<int>, limit: Option<int>)
    returns (r: Collected<T>)
    ensures var maxPages := if maxPagesOption.Some? then maxPagesOption.value else 50;
            && r.data == Gathered(fetch, 1, maxPages, limit)
            && r.meta == Closing(LastMeta(fetch, 1, maxPages, limit, EMPTY_LIST_META), |r.data|)
  {
    var maxPages := Or(maxPagesOption, DEFAULT_MAX_PAGES);
    var all: seq<T>, lastMeta, page, more := [], EMPTY_LIST_META, 1, true;
    ghost var whole := Gathered(fetch, 1, maxPages, limit);
    ghost var wholeMeta := LastMeta(fetch, 1, maxPages, limit, EMPTY_LIST_META);
    while page <= maxPages && more
      invariant Gathering(fetch, maxPages, limit, all, lastMeta, page, more, whole, wholeMeta)
      decreases maxPages - page, more
    {
      var response := fetch(page);
      var meta := NormalizeListMeta(response.meta, |response.data|, limit);
      GatherPage(fetch, maxPages, limit, all, lastMeta, page, whole, wholeMeta, meta);
      lastMeta := meta;
      all := all + response.data;
      if !lastMeta.hasMore {
        more := false;
      } else {
        page := page + 1;
      }
    }
    assert all + [] == all;
    r := Collected(all, Closing(lastMeta, |all|));
  }

  /** The rows of one page of a list. */
  function PageOf<T>(rows: seq<T>, limit: int, page: int): seq<T>
    requires limit > 0
  {
    var start, end := Min(Max((page - 1) * limit, 0), |rows|), Min(Max(page * limit, 0), |rows|);
    if start <= end then rows[start..end] else []
  }

  ghost predicate CutsAt<T>(response: Response<T>, rows: seq<T>, limit: int, page: int, fallback: Option<int>)
    requires limit > 0
  {
    response.data == PageOf(rows, limit, page) && (MetaOf(response, fallback).hasMore <==> page * limit < |rows|)
  }

  /** A server that cuts a list into pages and lets its client know when there is more. */
  ghost predicate Cuts<T>(fetch: int -> Response<T>, rows: seq<T>, limit: int, fallback: Option<int>)
    requires limit > 0
  {
    forall page :: page >= 1 ==> CutsAt(fetch(page), rows, limit, page, fallback)
  }

  lemma PageAt<T>(rows: seq<T>, limit: int, page: int, start: int)
    requires limit > 0 && page >= 1 && start == (page - 1) * limit && start <= |rows|
    ensures 0 <= start && page * limit == start + limit
    ensures PageOf(rows, limit, page) == rows[start..Min(start + limit, |rows|)]
  {
    MultipleBefore(0, page, limit);
    assert page * limit == start + limit;
  }

  lemma Joined<T>(rows: seq<T>, a: int, b: int, c: int)
    requires 0 <= a <= b <= c <= |rows|
    ensures rows[a..b] + rows[b..c] == rows[a..c]
  {
  }

  /** The number of rows on the pages before this one. */
  ghost function RowsBefore(page: int, limit: int): int {
    if page <= 1 then 0 else RowsBefore(page - 1, limit) + limit
  }

  lemma {:induction false} RowsBeforeIs(page: int, limit: int)
    requires page >= 1
    ensures RowsBefore(page, limit) == (page - 1) * limit
  {
    if page > 1 {
      RowsBeforeIs(page - 1, limit);
      Distribute(page - 2, 1, limit);
    }
  }

  lemma PageBounds(page: int, limit: int, maxPages: int)
    requires limit > 0 && 1 <= page <= maxPages + 1
    ensures 0 <= RowsBefore(page, limit) <= RowsBefore(maxPages + 1, limit)
    ensures page <= maxPages ==> RowsBefore(page, limit) + limit <= RowsBefore(maxPages + 1, limit)
    decreases maxPages - page
  {
    if page <= maxPages {
      PageBounds(page + 1, limit, maxPages);
    }
    RowsBeforeIs(page, limit);
    MultipleBefore(0, page, limit);
  }

  /** From this page on: its rows and, while rows are left, those from the next page on. */
  ghost predicate PageFirst<T>(from: int -> seq<T>, rows: seq<T>, limit: int, page: int) {
    var start := RowsBefore(page, limit);
    limit > 0 && 0 <= start <= |rows| ==>
      from(page) == rows[start..Min(start + limit, |rows|)] + (if start + limit < |rows| then from(page + 1) else [])
  }

  /** Page after page adds up to all rows, up to the last page allowed. */
  lemma {:induction false} PagesAddUp<T>(from: int -> seq<T>, rows: seq<T>, limit: int, page: int, start: int,
                                         maxPages: int, end: int)
    requires limit > 0 && end == Min(RowsBefore(maxPages + 1, limit), |rows|) && from(maxPages + 1) == []
    requires forall p :: 1 <= p <= maxPages ==> PageFirst(from, rows, limit, p)
    requires 1 <= page <= maxPages + 1 && start == RowsBefore(page, limit) <= |rows|
    ensures 0 <= start <= end <= |rows| && from(page) == rows[start..end]
    decreases maxPages - page
  {
    PageBounds(page, limit, maxPages);
    if page <= maxPages {
      var next := start + limit;
      assert PageFirst(from, rows, limit, page);
      if next < |rows| {
        PagesAddUp(from, rows, limit, page + 1, next, maxPages, end);
        Joined(rows, start, next, end);
      }
    }
  }

  function GatheredOn<T>(fetch: int -> Response<T>, maxPages: int, fallback: Option<int>): int -> seq<T> {
    page => Gathered(fetch, page, maxPages, fallback)
  }

  lemma GatheredAt<T>(fetch: int -> Response<T>, rows: seq<T>, limit: int, page: int, start: int, maxPages: int,
                      fallback: Option<int>)
    requires limit > 0 && Cuts(fetch, rows, limit, fallback) && 1 <= page <= maxPages
    requires start == RowsBefore(page, limit) <= |rows|
    ensures 0 <= start
    ensures Gathered(fetch, page, maxPages, fallback)
            == rows[start..Min(start + limit, |rows|)]
               + (if start + limit < |rows| then Gathered(fetch, page + 1, maxPages, fallback) else [])
  {
    RowsBeforeIs(page, limit);
    PageAt(rows, limit, page, start);
    assert CutsAt(fetch(page), rows, limit, page, fallback);
  }

  lemma GatheredPage<T>(fetch: int -> Response<T>, rows: seq<T>, limit: int, page: int, maxPages: int,
                        fallback: Option<int>)
    requires limit > 0 && Cuts(fetch, rows, limit, fallback) && 1 <= page <= maxPages
    ensures PageFirst(GatheredOn(fetch, maxPages, fallback), rows, limit, page)
  {
    var start, from := RowsBefore(page, limit), GatheredOn(fetch, maxPages, fallback);
    if start <= |rows| {
      GatheredAt(fetch, rows, limit, page, start, maxPages, fallback);
      GatheredOnIs(fetch, maxPages, fallback, page);
      GatheredOnIs(fetch, maxPages, fallback, page + 1);
      PageFirstIs(from, rows, limit, page, start, from(page + 1));
    }
  }

  lemma GatheredOnIs<T>(fetch: int -> Response<T>, maxPages: int, fallback: Option<int>, page: int)
    ensures GatheredOn(fetch, maxPages, fallback)(page) == Gathered(fetch, page, maxPages, fallback)
  {
  }

  lemma PageFirstIs<T>(from: int -> seq<T>, rows: seq<T>, limit: int, page: int, start: int, later: seq<T>)
    requires limit > 0 && 0 <= start == RowsBefore(page, limit) <= |rows| && later == from(page + 1)
    requires from(page) == rows[start..Min(start + limit, |rows|)] + (if start + limit < |rows| then later else [])
    ensures PageFirst(from, rows, limit, page)
  {
  }

  lemma GatheredPages<T>(fetch: int -> Response<T>, rows: seq<T>, limit: int, maxPages: int, fallback: Option<int>)
    requires limit > 0 && Cuts(fetch, rows, limit, fallback)
    ensures forall p :: 1 <= p <= maxPages ==> PageFirst(GatheredOn(fetch, maxPages, fallback), rows, limit, p)
  {
    forall p | 1 <= p <= maxPages ensures PageFirst(GatheredOn(fetch, maxPages, fallback), rows, limit, p) {
      GatheredPage(fetch, rows, limit, p, maxPages, fallback);
    }
  }

  lemma GatheredRows<T>(fetch: int -> Response<T>, rows: seq<T>, limit: int, maxPages: int, end: int,
                        fallback: Option<int>)
    requires limit > 0 && Cuts(fetch, rows, limit, fallback) && maxPages >= 1
    requires end == Min(RowsBefore(maxPages + 1, limit), |rows|)
    ensures 0 <= end <= |rows| && Gathered(fetch, 1, maxPages, fallback) == rows[..end]
  {
    GatheredPages(fetch, rows, limit, maxPages, fallback);
    PagesAddUp(GatheredOn(fetch, maxPages, fallback), rows, limit, 1, 0, maxPages, end);
  }

  /** The last page that the loop fetches. */
  function LastPage(count: nat, limit: int, maxPages: int): int
    requires limit > 0
  {
    Min(maxPages, Max(1, CeilDiv(count, limit)))
  }

  lemma MoreIffEarlier(count: nat, limit: int, page: int)
    requires limit > 0 && page >= 1
    ensures page * limit < count <==> page < CeilDiv(count, limit)
  {
    CeilBounds(count, limit);
    if page < CeilDiv(count, limit) {
      MultipleBefore(page, CeilDiv(count, limit), limit);
    } else if CeilDiv(count, limit) < page {
      MultipleBefore(CeilDiv(count, limit), page, limit);
    }
  }

  lemma {:induction false} LastMetaIs<T>(fetch: int -> Response<T>, rows: seq<T>, limit: int, page: int, maxPages: int,
                                         fallback: Option<int>, before: ListMeta)
    requires limit > 0 && Cuts(fetch, rows, limit, fallback) && 1 <= page <= LastPage(|rows|, limit, maxPages)
    ensures LastMeta(fetch, page, maxPages, fallback, before)
            == MetaOf(fetch(LastPage(|rows|, limit, maxPages)), fallback)
    decreases maxPages - page
  {
    var meta := MetaOf(fetch(page), fallback);
    assert CutsAt(fetch(page), rows, limit, page, fallback);
    MoreIffEarlier(|rows|, limit, page);
    OnePage(fetch, maxPages, fallback, page, before, meta);
    if page < LastPage(|rows|, limit, maxPages) {
      LastMetaIs(fetch, rows, limit, page + 1, maxPages, fallback, meta);
    }
  }

  /** What is collected: the list, or its first maxPages * limit rows, and the last page's metadata, closed. */
  lemma CollectedPages<T>(fetch: int -> Response<T>, rows: seq<T>, limit: int, maxPages: int, fallback: Option<int>)
    requires limit > 0 && maxPages >= 1 && Cuts(fetch, rows, limit, fallback)
    ensures maxPages * limit >= 1
    ensures Gathered(fetch, 1, maxPages, fallback) == rows[..Min(maxPages * limit, |rows|)]
    ensures LastMeta(fetch, 1, maxPages, fallback, EMPTY_LIST_META)
            == MetaOf(fetch(LastPage(|rows|, limit, maxPages)), fallback)
  {
    MultipleBefore(0, maxPages, limit);
    assert maxPages * limit == (maxPages - 1) * limit + limit;
    RowsBeforeIs(maxPages + 1, limit);
    GatheredRows(fetch, rows, limit, maxPages, Min(maxPages * limit, |rows|), fallback);
    LastMetaIs(fetch, rows, limit, 1, maxPages, fallback, EMPTY_LIST_META);
  }

  // ---- Servers ----------------------------------------------------------------------------------

  /** A server in page mode: it sends page, limit, total and hasMore. */
  function PageServer<T>(rows: seq<T>, limit: int): int -> Response<T>
    requires limit > 0
  {
    page => Response(PageOf(rows, limit, page),
                     Some(NOTHING.(total := Some(|rows|), page := Some(page), limit := Some(limit),
                                   hasMore := Some(page * limit < |rows|))))
  }

  /** A legacy server in cursor mode: the next cursor on all pages but the last, and a total or none; no hasMore. */
  function CursorServer<T>(rows: seq<T>, limit: int, cursor: int -> string, total: Option<int>): int -> Response<T>
    requires limit > 0
  {
    page => Response(PageOf(rows, limit, page),
                     Some(NOTHING.(total := total,
                                   nextCursor := if page * limit < |rows| then Some(cursor(page)) else None)))
  }

  /**
   * Over a server in page mode the loop returns the list in order, or its first
   * maxPages * limit rows; its metadata keeps the server's total and always says
   * that there is no more.
   */
  lemma CollectedIsTheList<T>(rows: seq<T>, limit: int, maxPages: int, fallback: Option<int>)
    requires limit > 0 && maxPages >= 1
    ensures maxPages * limit >= 1
    ensures var fetch := PageServer(rows, limit);
            var data := Gathered(fetch, 1, maxPages, fallback);
            var meta := Closing(LastMeta(fetch, 1, maxPages, fallback, EMPTY_LIST_META), |data|);
            && data == rows[..Min(maxPages * limit, |rows|)]
            && meta.total == |rows| && !meta.hasMore && meta.limit == limit && meta.mode == PageMode
            && meta.page == Some(LastPage(|rows|, limit, maxPages))
            && (|data| == meta.total <==> |rows| <= maxPages * limit)
  {
    var fetch := PageServer(rows, limit);
    forall page | page >= 1 ensures CutsAt(fetch(page), rows, limit, page, fallback) {
    }
    CollectedPages(fetch, rows, limit, maxPages, fallback);
  }

  lemma LastPageLength<T>(rows: seq<T>, limit: int, maxPages: int)
    requires limit > 0 && maxPages >= 1
    ensures var last := LastPage(|rows|, limit, maxPages);
            |PageOf(rows, limit, last)| == Min(maxPages * limit, |rows|) - (last - 1) * limit
    ensures var last := LastPage(|rows|, limit, maxPages);
            (last - 1) * limit == 0 <==> |rows| <= limit || maxPages == 1
    ensures PageOf(rows, limit, LastPage(|rows|, limit, maxPages)) == [] <==> rows == []
  {
    var last := LastPage(|rows|, limit, maxPages);
    CeilBounds(|rows|, limit);
    MoreIffEarlier(|rows|, limit, 1);
    MultipleBefore(0, last, limit);
    if last > 1 {
      MoreIffEarlier(|rows|, limit, last - 1);
      MultipleBefore(1, last, limit);
    }
    PageAt(rows, limit, last, (last - 1) * limit);
    if last < maxPages {
      MultipleBefore(last, maxPages, limit);
      assert maxPages * limit == (maxPages - 1) * limit + limit;
    }
  }

  /**
   * Over a legacy cursor server the loop returns the same rows. A total that was
   * sent is kept; without one the metadata gives the number of rows of the last
   * page, which is that of the list collected exactly when only one page was read.
   */
  lemma CursorListCollected<T>(rows: seq<T>, limit: int, cursor: int -> string, total: Option<int>, maxPages: int,
                               fallback: Option<int>)
    requires limit > 0 && maxPages >= 1 && (total.Some? ==> total.value == |rows|)
    ensures maxPages * limit >= 1
    ensures var fetch := CursorServer(rows, limit, cursor, total);
            var data := Gathered(fetch, 1, maxPages, fallback);
            var meta := Closing(LastMeta(fetch, 1, maxPages, fallback, EMPTY_LIST_META), |data|);
            && data == rows[..Min(maxPages * limit, |rows|)]
            && !meta.hasMore && meta.page == Some(1) && meta.mode == CursorMode
            && meta.totalPages == (if meta.limit > 0 then Some(Max(1, CeilDiv(meta.total, meta.limit))) else None)
            && meta.limit == (if fallback.Some? then fallback.value else 20)
            && (total.Some? ==> meta.total == |rows|)
            && (total.None? ==>
                  && meta.total == |PageOf(rows, limit, LastPage(|rows|, limit, maxPages))|
                  && (meta.total == |data| <==> |rows| <= limit || maxPages == 1))
  {
    var fetch := CursorServer(rows, limit, cursor, total);
    forall page | page >= 1 ensures CutsAt(fetch(page), rows, limit, page, fallback) {
    }
    CollectedPages(fetch, rows, limit, maxPages, fallback);
    LastPageLength(rows, limit, maxPages);
  }

  /** A first page that says neither hasMore nor a next cursor is all that is collected, whatever its total says. */
  lemma WithoutHintOnlyOnePage<T>(fetch: int -> Response<T>, maxPages: int, fallback: Option<int>)
    requires maxPages >= 1
    requires fetch(1).meta.None? || (fetch(1).meta.value.hasMore.None? && fetch(1).meta.value.nextCursor.None?)
    ensures Gathered(fetch, 1, maxPages, fallback) == fetch(1).data
    ensures LastMeta(fetch, 1, maxPages, fallback, EMPTY_LIST_META) == MetaOf(fetch(1), fallback)
    ensures fetch(1).meta.None? ==>
              MetaOf(fetch(1), fallback)
              == ListMeta(None, |fetch(1).data|, false, None, if fallback.Some? then fallback.value else 20, None,
                          false, CursorMode, Capabilities(false, []), None)
  {
    assert fetch(1).data + [] == fetch(1).data;
  }
}
