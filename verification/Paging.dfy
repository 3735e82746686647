/** Page windows over lists (internal/httpx/paging.go, internal/api/expedition.go). */
module Paging {
  import opened Prelude

  const DEFAULT_LIMIT := 8

  datatype Page = Page(number: int, limit: int, offset: int)

  predicate Requested(p: Page) {
    p.limit > 0
  }

  predicate HasMore(p: Page, total: int) {
    Requested(p) && p.offset + p.limit < total
  }

  /** Pages a request can name: none at all, or a window at a whole number of limits. */
  ghost predicate WellFormed(p: Page, maxLimit: int) {
    && p.number >= 1
    && (if Requested(p) then p.offset == (p.number - 1) * p.limit && (maxLimit > 0 ==> p.limit <= maxLimit)
        else p == Page(1, 0, 0))
  }

  /** From the query's numbers, 0 standing for a missing or unreadable one. */
  method ParsePage(queryLimit: int, queryPage: int, maxLimit: int) returns (p: Page)
    ensures WellFormed(p, maxLimit)
    ensures Requested(p) <==> queryLimit > 0 || queryPage > 0
    ensures Requested(p) ==> p.number == if queryPage < 1 then 1 else queryPage
    ensures Requested(p) ==>
      var asked := if queryLimit > 0 then queryLimit else DEFAULT_LIMIT;
      p.limit == if maxLimit > 0 && asked > maxLimit then maxLimit else asked
  {
    var limit, number := queryLimit, queryPage;
    if limit <= 0 && number > 0 {
      limit := DEFAULT_LIMIT;
    }
    if limit <= 0 {
      return Page(1, 0, 0);
    }
    if maxLimit > 0 && limit > maxLimit {
      limit := maxLimit;
    }
    if number < 1 {
      number := 1;
    }
    return Page(number, limit, (number - 1) * limit);
  }

  /** The window of an already built list. */
  function PageOf<T>(all: seq<T>, p: Page): seq<T>
    requires p.offset >= 0
  {
    if !Requested(p) then all
    else if p.offset >= |all| then []
    else if p.offset + p.limit > |all| then all[p.offset..]
    else all[p.offset..p.offset + p.limit]
  }

  /** The rows of a page are those of the list from its offset on, as many as fit. */
  lemma PageIsSlice<T>(all: seq<T>, p: Page)
    requires p.offset >= 0
    ensures !Requested(p) ==> PageOf(all, p) == all
    ensures Requested(p) ==>
      && |PageOf(all, p)| ==
         (if p.offset >= |all| then 0 else if |all| - p.offset < p.limit then |all| - p.offset else p.limit)
      && forall i :: 0 <= i < |PageOf(all, p)| ==> p.offset + i < |all| && PageOf(all, p)[i] == all[p.offset + i]
    ensures HasMore(p, |all|) <==> Requested(p) && p.offset + |PageOf(all, p)| < |all| && |PageOf(all, p)| > 0
  {
  }

  /** Fetching pages 1, 2, ... while there is more yields the whole list, once and in order. */
  method Walk<T>(all: seq<T>, limit: int) returns (fetched: seq<T>, pages: nat)
    requires limit > 0
    ensures fetched == all
    ensures pages >= 1 && |all| <= pages * limit
    ensures pages > 1 ==> (pages - 1) * limit < |all|
  {
    pages := 1;
    var page := Page(1, limit, 0);
    fetched := PageOf(all, page);
    while HasMore(page, |all|)
      invariant pages >= 1 && page == Page(pages, limit, (pages - 1) * limit)
      invariant 0 <= page.offset <= |all| && (pages > 1 ==> page.offset < |all|)
      invariant fetched == all[..if page.offset + limit < |all| then page.offset + limit else |all|]
      decreases |all| - page.offset
    {
      assert pages * limit == (pages - 1) * limit + limit;
      pages := pages + 1;
      page := Page(pages, limit, (pages - 1) * limit);
      fetched := fetched + PageOf(all, page);
    }
    assert pages * limit == (pages - 1) * limit + limit;
  }

  /**
   The admin level list, whose rows 1..count are built for the window alone. None stands for
   the panic of allocating a list with negative capacity.
   */
  method AdminWindow<T>(row: int -> T, p: Page, count: nat) returns (r: Option<seq<T>>)
    requires p.offset >= 0
    ensures r == AdminRows(row, p, count)
  {
    var from, to := 1, count;
    if Requested(p) {
      from := p.offset + 1;
      to := p.offset + p.limit;
      if to > count {
        to := count;
      }
    }
    if to - from + 1 < 0 {
      return None;
    }
    var levels := [];
    var i := from;
    while i <= to
      invariant from <= i <= to + 1
      invariant levels == seq(i - from, k requires 0 <= k => row(from + k))
    {
      levels := levels + [row(i)];
      i := i + 1;
    }
    return Some(levels);
  }

  function AdminRows<T>(row: int -> T, p: Page, count: nat): Option<seq<T>>
    requires p.offset >= 0
  {
    if !Requested(p) then Some(seq(count, k requires 0 <= k => row(1 + k)))
    else
      var to := if p.offset + p.limit > count then count else p.offset + p.limit;
      if to < p.offset then None else Some(seq(to - p.offset, k requires 0 <= k => row(p.offset + 1 + k)))
  }

  /** The arithmetic window is the page of the full list exactly up to the end of the campaign; beyond it panics. */
  lemma AdminWindowIsPage<T>(row: int -> T, p: Page, count: nat)
    requires p.offset >= 0
    ensures AdminRows(row, p, count) != None <==> !Requested(p) || p.offset <= count
    ensures AdminRows(row, p, count) != None ==>
      AdminRows(row, p, count) == Some(PageOf(seq(count, k requires 0 <= k => row(1 + k)), p))
  {
    var all := seq(count, k requires 0 <= k => row(1 + k));
    if Requested(p) && p.offset <= count {
      assert PageOf(all, p) == AdminRows(row, p, count).value;
    }
  }
}
