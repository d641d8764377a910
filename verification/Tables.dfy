// table_helpers.py: search and pagination.

module Tables {
  import opened Text

  const ALLOWED_PAGE_SIZES: set<int> := {20, 50, 100}
  const DEFAULT_PAGE_SIZE := 20

  datatype Page<T> = Page(
    rows: seq<T>, page: int, pageSize: int, total: nat, totalPages: nat,
    hasPrev: bool, hasNext: bool, startIdx: nat, endIdx: nat)

  function PageSize(requested: int): (size: int)
    ensures size in ALLOWED_PAGE_SIZES && size > 0
  {
    if requested in ALLOWED_PAGE_SIZES then requested else DEFAULT_PAGE_SIZE
  }

  /** max(1, (total + page_size - 1) // page_size). */
  function TotalPages(total: nat, size: int): (pages: nat)
    requires size > 0
    ensures pages >= 1
  {
    var pages := (total + size - 1) / size;
    if pages < 1 then 1 else pages
  }

  /** paginate. */
  function Paginate<T>(items: seq<T>, page: int, pageSize: int): Page<T> {
    var size := PageSize(pageSize);
    var pages := TotalPages(|items|, size);
    var page' := if page < 1 then 1 else if page > pages then pages else page;
    var start := (page' - 1) * size;
    PageBounds(|items|, size, page');
    var rows := items[start..Min(start + size, |items|)];
    Page(rows, page', size, |items|, pages, page' > 1, page' < pages,
         if |items| > 0 then start + 1 else 0, Min(start + |rows|, |items|))
  }

  /** Page p of the pages that there are starts inside the list, or at its end if it is empty. */
  lemma PageBounds(total: nat, size: int, p: int)
    requires size > 0 && 1 <= p <= TotalPages(total, size)
    ensures 0 <= (p - 1) * size <= total
    ensures total > 0 ==> (p - 1) * size < total
    ensures p == TotalPages(total, size) <==> p * size >= total
  {
    var q, r := (total + size - 1) / size, (total + size - 1) % size;
    assert total + size - 1 == size * q + r;
    Multiples(p - 1, q - 1, size);
    Multiples(q, p, size);
    assert (q - 1) * size == q * size - size;
    if p < q {
      Multiples(p, q - 1, size);
    }
    if total == 0 {
      assert q == 0 by { Multiples(1, q, size); }
    }
  }

  lemma Multiples(a: int, b: int, size: int)
    requires size > 0
    ensures a <= b ==> a * size <= b * size
  {
    if a <= b {
      assert (b - a) * size >= 0;
      assert b * size == a * size + (b - a) * size;
    }
  }

  /**
   * The metadata describe the slice: the page is the requested one, clamped; its rows are the items
   * from start_idx to end_idx, counted from one; has_prev and has_next say whether items remain on
   * either side; and no page but the last is short, nor is any page of a non-empty list empty.
   */
  lemma PageDescribesSlice<T>(items: seq<T>, page: int, pageSize: int)
    ensures
      var p := Paginate(items, page, pageSize);
      && 1 <= p.page <= p.totalPages
      && (1 <= page <= p.totalPages ==> p.page == page) && (page < 1 ==> p.page == 1)
      && (page > p.totalPages ==> p.page == p.totalPages)
      && p.total == |items|
      && (items == [] ==> p.rows == [] && p.startIdx == p.endIdx == 0 && p.totalPages == 1)
      && (items != [] ==> 1 <= p.startIdx <= p.endIdx <= |items| && p.rows == items[p.startIdx - 1..p.endIdx])
      && (p.hasPrev <==> p.startIdx > 1) && (p.hasNext <==> p.endIdx < |items|)
      && (p.hasNext ==> |p.rows| == p.pageSize)
  {
    var p := Paginate(items, page, pageSize);
    PageBounds(|items|, p.pageSize, p.page);
    Multiples(1, p.page - 1, p.pageSize);
    assert p.page * p.pageSize == (p.page - 1) * p.pageSize + p.pageSize;
  }

  /** The rows of the pages 1, ..., n. */
  function FirstPages<T>(items: seq<T>, n: nat, pageSize: int): seq<T> {
    if n == 0 then [] else FirstPages(items, n - 1, pageSize) + Paginate(items, n, pageSize).rows
  }

  /** The rows of an existing page, by the ends of this page and of the one before it. */
  lemma PageRows<T>(items: seq<T>, n: nat, pageSize: int, start: int, end: int)
    requires 1 <= n <= TotalPages(|items|, PageSize(pageSize))
    requires start == Min((n - 1) * PageSize(pageSize), |items|) && end == Min(n * PageSize(pageSize), |items|)
    ensures 0 <= start <= end <= |items| && Paginate(items, n, pageSize).rows == items[start..end]
  {
    var size := PageSize(pageSize);
    PageBounds(|items|, size, n);
    assert n * size == (n - 1) * size + size;
  }

  lemma Join<T>(items: seq<T>, start: int, end: int)
    requires 0 <= start <= end <= |items|
    ensures items[..start] + items[start..end] == items[..end]
  {
  }

  lemma {:induction false} FirstPagesArePrefix<T>(items: seq<T>, n: nat, pageSize: int, end: int)
    requires n <= TotalPages(|items|, PageSize(pageSize)) && end == Min(n * PageSize(pageSize), |items|)
    ensures 0 <= end <= |items| && FirstPages(items, n, pageSize) == items[..end]
  {
    if n > 0 {
      var start := Min((n - 1) * PageSize(pageSize), |items|);
      FirstPagesArePrefix(items, n - 1, pageSize, start);
      PageRows(items, n, pageSize, start, end);
      Join(items, start, end);
    }
  }

  /** Putting all pages together gives back the list: nothing is repeated, and nothing left out. */
  lemma PagesMakeTheList<T>(items: seq<T>, pageSize: int)
    ensures FirstPages(items, TotalPages(|items|, PageSize(pageSize)), pageSize) == items
  {
    var size := PageSize(pageSize);
    var pages := TotalPages(|items|, size);
    PageBounds(|items|, size, pages);
    FirstPagesArePrefix(items, pages, pageSize, |items|);
    assert items[..|items|] == items;
  }

  // ---------------------------------------------------------------- search

  /** The text of an item's field, as _get_field finds it. */
  type Getter<!T> = (T, string) -> Option<string>

  /** _matches, without an item getter. */
  predicate Matches<T>(item: T, q: string, fields: seq<string>, get: Getter<T>) {
    exists k | 0 <= k < |fields| ::
      var text := get(item, fields[k]);
      text.Some? && text.value != "" && Contains(Lower(text.value), q)
  }

  function Hits<T>(items: seq<T>, q: string, fields: seq<string>, get: Getter<T>): (hits: seq<Option<T>>)
    ensures |hits| == |items|
    ensures forall k | 0 <= k < |items| :: hits[k] == if Matches(items[k], q, fields, get) then Some(items[k]) else None
  {
    seq(|items|, k requires 0 <= k < |items| => if Matches(items[k], q, fields, get) then Some(items[k]) else None)
  }

  /** search_items. */
  function Search<T>(items: seq<T>, query: string, fields: seq<string>, get: Getter<T>): seq<T> {
    if Strip(query) == "" then items else Somes(Hits(items, Lower(Strip(query)), fields, get))
  }

  /** The result of a search is exactly the matching items, each at its place in the given order. */
  lemma SearchExactly<T>(items: seq<T>, query: string, fields: seq<string>, get: Getter<T>) returns (at: seq<nat>)
    requires Strip(query) != ""
    ensures |at| == |Search(items, query, fields, get)| && Increasing(at)
    ensures forall j | 0 <= j < |at| :: at[j] < |items| && Search(items, query, fields, get)[j] == items[at[j]]
    ensures forall k | 0 <= k < |items| :: k in at <==> Matches(items[k], Lower(Strip(query)), fields, get)
  {
    var hits := Hits(items, Lower(Strip(query)), fields, get);
    at := Positions(hits);
    PositionsIncrease(hits);
    forall j | 0 <= j < |at| ensures hits[at[j]] == Some(Somes(hits)[j]) {
      PositionsHold(hits, j);
    }
    forall k | 0 <= k < |items| ensures k in at <==> Matches(items[k], Lower(Strip(query)), fields, get) {
      if Matches(items[k], Lower(Strip(query)), fields, get) {
        PositionsComplete(hits, k);
      }
    }
  }

  /** table_context, with the parsed query parameters. */
  function TableContext<T>(items: seq<T>, query: string, fields: seq<string>, get: Getter<T>, page: int, size: int,
                           pageSize: int): Page<T> {
    Paginate(Search(items, Strip(query), fields, get), page, if size in ALLOWED_PAGE_SIZES then size else pageSize)
  }

  /** The rows of the first n pages of a table. */
  function ContextPages<T>(items: seq<T>, query: string, fields: seq<string>, get: Getter<T>, n: nat, size: int,
                           pageSize: int): seq<T> {
    if n == 0 then []
    else
      ContextPages(items, query, fields, get, n - 1, size, pageSize)
      + TableContext(items, query, fields, get, n, size, pageSize).rows
  }

  lemma {:induction false} ContextPagesArePages<T>(
    items: seq<T>, query: string, fields: seq<string>, get: Getter<T>, n: nat, size: int, pageSize: int)
    ensures ContextPages(items, query, fields, get, n, size, pageSize)
         == FirstPages(Search(items, Strip(query), fields, get), n,
                       if size in ALLOWED_PAGE_SIZES then size else pageSize)
  {
    if n > 0 {
      ContextPagesArePages(items, query, fields, get, n - 1, size, pageSize);
    }
  }

  /** Paging through a table shows exactly what the search finds, in order; stripping twice changes nothing. */
  lemma TableShowsTheSearch<T>(items: seq<T>, query: string, fields: seq<string>, get: Getter<T>, page: int, size: int,
                               pageSize: int)
    ensures
      var p := TableContext(items, query, fields, get, page, size, pageSize);
      ContextPages(items, query, fields, get, p.totalPages, size, pageSize) == Search(items, query, fields, get)
  {
    var p := TableContext(items, query, fields, get, page, size, pageSize);
    ContextPagesArePages(items, query, fields, get, p.totalPages, size, pageSize);
    PagesMakeTheList(Search(items, Strip(query), fields, get), if size in ALLOWED_PAGE_SIZES then size else pageSize);
    StripTwice(query);
  }

  /** The page size is the requested one if it is offered, and 20 otherwise. */
  lemma PageSizeExactly(requested: int)
    ensures PageSize(requested) == if requested == 20 || requested == 50 || requested == 100 then requested else 20
  {
  }

  /** A page holds that many rows, but the last one holds what is left. */
  lemma RowsExactly<T>(items: seq<T>, page: int, pageSize: int)
    ensures
      var p := Paginate(items, page, pageSize);
      && p.pageSize == (if pageSize == 20 || pageSize == 50 || pageSize == 100 then pageSize else 20)
      && (p.totalPages - 1) * p.pageSize <= |items| <= p.totalPages * p.pageSize
      && |p.rows| == (if p.page < p.totalPages then p.pageSize else |items| - (p.totalPages - 1) * p.pageSize)
  {
    var p := Paginate(items, page, pageSize);
    PageSizeExactly(pageSize);
    PageBounds(|items|, p.pageSize, p.page);
    PageBounds(|items|, p.pageSize, p.totalPages);
    assert p.page * p.pageSize == (p.page - 1) * p.pageSize + p.pageSize;
    assert p.totalPages * p.pageSize == (p.totalPages - 1) * p.pageSize + p.pageSize;
  }

  /** The query stands at this place of the text, in any case. */
  predicate StandsAt(text: string, q: string, i: int) {
    && 0 <= i <= |text| - |q|
    && forall j | 0 <= j < |q| :: LowerChar(text[i + j]) == LowerChar(q[j])
  }

  predicate Mentions(text: string, q: string) { exists i | 0 <= i <= |text| - |q| :: StandsAt(text, q, i) }

  lemma StandsAtExactly(text: string, q: string, i: int)
    requires 0 <= i <= |text| - |q|
    ensures OccursAt(Lower(text), Lower(q), i) <==> StandsAt(text, q, i)
  {
    var part := Lower(text)[i..i + |q|];
    assert forall j | 0 <= j < |q| :: part[j] == LowerChar(text[i + j]) && Lower(q)[j] == LowerChar(q[j]);
    if StandsAt(text, q, i) {
      assert part == Lower(q);
    }
    if part == Lower(q) {
      forall j | 0 <= j < |q| ensures LowerChar(text[i + j]) == LowerChar(q[j]) {
        assert part[j] == Lower(q)[j];
      }
    }
  }

  lemma MentionsExactly(text: string, q: string)
    ensures Contains(Lower(text), Lower(q)) <==> Mentions(text, q)
  {
    if Contains(Lower(text), Lower(q)) {
      var i :| 0 <= i <= |Lower(text)| - |Lower(q)| && OccursAt(Lower(text), Lower(q), i);
      StandsAtExactly(text, q, i);
    }
    if Mentions(text, q) {
      var i :| 0 <= i <= |text| - |q| && StandsAt(text, q, i);
      StandsAtExactly(text, q, i);
    }
  }

  /** An item is found exactly if one of its fields mentions the query, in any case. */
  lemma MatchesExactly<T>(item: T, q: string, fields: seq<string>, get: Getter<T>)
    requires q != ""
    ensures Matches(item, Lower(q), fields, get) <==>
      exists k | 0 <= k < |fields| ::
        var text := get(item, fields[k]);
        text.Some? && Mentions(text.value, q)
  {
    forall k | 0 <= k < |fields| && get(item, fields[k]).Some?
      ensures Contains(Lower(get(item, fields[k]).value), Lower(q)) <==> Mentions(get(item, fields[k]).value, q)
    {
      MentionsExactly(get(item, fields[k]).value, q);
    }
  }
}
