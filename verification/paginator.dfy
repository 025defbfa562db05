/**
  `paginated_response`: a fixed-size window of five items over a sequence,
  with navigation metadata. The requested start is clamped into
  `[0, max(totalCount - 1, 0)]`; `totalCount` defaults to the length of the
  items. The slice follows Python's rules, so an explicit `totalCount` that
  disagrees with the length is modelled as the source would behave.
 */
module Paginator {
  import opened Values

  const PageSize: int := 5

  datatype Page = Page(
    items: seq<Json>,
    start: int,
    count: int,
    totalCount: int,
    hasMore: bool,
    nextStart: Option<int>)

  function Min(a: int, b: int): int { if a <= b then a else b }
  function Max(a: int, b: int): int { if a >= b then a else b }

  /** A Python slice bound: negative values count from the end, and the result
      is clamped into `[0, n]`. */
  function SliceBound(i: int, n: nat): (r: nat)
    ensures r <= n
    ensures 0 <= i <= n ==> r == i
  {
    if i < 0 then Max(i + n, 0) else Min(i, n)
  }

  /** Python's `s[lo:hi]`. */
  function PySlice<T>(s: seq<T>, lo: int, hi: int): (r: seq<T>)
    ensures 0 <= lo <= hi <= |s| ==> r == s[lo..hi]
    ensures |r| <= |s|
  {
    var a := SliceBound(lo, |s|);
    var b := SliceBound(hi, |s|);
    if a < b then s[a..b] else []
  }

  /** `paginated_response(items, start, total_count)`; `None` stands for the
      omitted argument. */
  function Paginate(items: seq<Json>, start: int, totalCount: Option<int>): (p: Page)
    ensures p.totalCount == (if totalCount.Some? then totalCount.value else |items|)
    // the clamp
    ensures 0 <= p.start
    ensures p.totalCount > 0 ==> p.start < p.totalCount
    ensures p.totalCount <= 0 ==> p.start == 0
    ensures 0 <= start < p.totalCount ==> p.start == start
    ensures start < 0 ==> p.start == 0
    ensures 0 < p.totalCount <= start ==> p.start == p.totalCount - 1
    // the window
    ensures p.count == Min(PageSize, p.totalCount - p.start)
    ensures p.totalCount >= 0 ==> 0 <= p.count <= PageSize
    ensures p.hasMore <==> p.start + p.count < p.totalCount
    ensures p.hasMore ==> p.count == PageSize
    ensures p.nextStart == (if p.hasMore then Some(p.start + p.count) else None)
    ensures 0 <= p.totalCount <= |items| ==>
              0 <= p.start <= p.start + p.count <= |items| && p.items == items[p.start..p.start + p.count]
    ensures p.totalCount == 0 ==> p.items == [] && p.count == 0 && !p.hasMore && p.nextStart == None
  {
    var total := if totalCount.Some? then totalCount.value else |items|;
    var s := Max(0, Min(if total > 0 then total - 1 else 0, start));
    var end := Min(s + PageSize, total);
    Page(PySlice(items, s, end), s, end - s, total, end < total,
         if end < total then Some(end) else None)
  }

  /** All items of a sequence of pages, in order. */
  function Concat(pages: seq<Page>): seq<Json>
  {
    if |pages| == 0 then [] else Concat(pages[..|pages| - 1]) + pages[|pages| - 1].items
  }

  lemma ConcatSnoc(pages: seq<Page>, p: Page)
    ensures Concat(pages + [p]) == Concat(pages) + p.items
  {
    assert (pages + [p])[..|pages|] == pages;
  }

  /** Following `nextStart` from a page that starts at `start` gives the page
      five further on, which extends the prefix of items seen so far. */
  lemma NextPageExtends(items: seq<Json>, start: nat)
    requires Paginate(items, start, None).hasMore
    ensures var p := Paginate(items, start, None);
            var next := Paginate(items, p.nextStart.value, None);
            && next.start == start + PageSize
            && p.start + p.count <= next.start + next.count <= |items|
            && items[..next.start + next.count] == items[..p.start + p.count] + next.items
  {
    var p := Paginate(items, start, None);
    var next := Paginate(items, p.nextStart.value, None);
    assert items[..next.start + next.count] == items[..next.start] + items[next.start..next.start + next.count];
  }

  /** Page `i` starts at `5 * i`, and every page but the last is full and has more. */
  predicate Tiled(pages: seq<Page>)
  {
    && (forall i :: 0 <= i < |pages| ==> pages[i].start == PageSize * i)
    && (forall i :: 0 <= i < |pages| - 1 ==> pages[i].hasMore && pages[i].count == PageSize)
  }

  /** Page `i` is what `paginated_response(items, 5 * i)` returns. */
  predicate Followed(items: seq<Json>, pages: seq<Page>)
  {
    forall i :: 0 <= i < |pages| ==> pages[i] == Paginate(items, PageSize * i, None)
  }

  lemma FollowedSnoc(items: seq<Json>, pages: seq<Page>, p: Page)
    requires Followed(items, pages)
    requires p == Paginate(items, PageSize * |pages|, None)
    ensures Followed(items, pages + [p])
  {
  }

  lemma TiledSnoc(pages: seq<Page>, p: Page)
    requires Tiled(pages) && |pages| >= 1
    requires pages[|pages| - 1].hasMore && pages[|pages| - 1].count == PageSize
    requires p.start == PageSize * |pages|
    ensures Tiled(pages + [p])
  {
  }

  /** The state of a client after following `nextStart` through `pages`: page
      `i` is `paginated_response(items, 5 * i)`, the pages tile the items, and
      together they hold exactly the prefix of the items seen so far. */
  predicate Walked(items: seq<Json>, pages: seq<Page>)
  {
    && |pages| >= 1
    && Followed(items, pages)
    && Tiled(pages)
    && var p := pages[|pages| - 1];
       0 <= p.start + p.count <= |items| && Concat(pages) == items[..p.start + p.count]
  }

  lemma WalkStart(items: seq<Json>)
    ensures Walked(items, [Paginate(items, 0, None)])
  {
    ConcatSnoc([], Paginate(items, 0, None));
  }

  /** Following `nextStart` from the last page seen keeps the client's state. */
  lemma WalkStep(items: seq<Json>, pages: seq<Page>)
    requires Walked(items, pages) && pages[|pages| - 1].hasMore
    ensures var p := pages[|pages| - 1];
            var next := Paginate(items, p.nextStart.value, None);
            && p.nextStart.value == PageSize * |pages| == p.start + PageSize
            && Walked(items, pages + [next])
  {
    var p := pages[|pages| - 1];
    NextPageExtends(items, p.start);
    var next := Paginate(items, p.nextStart.value, None);
    ConcatSnoc(pages, next);
    TiledSnoc(pages, next);
    FollowedSnoc(items, pages, next);
  }

  /** A page that has more announces the start of the page five further on. */
  lemma NextLink(items: seq<Json>, p: Page, q: Page, i: int)
    requires p == Paginate(items, PageSize * i, None) && p.hasMore
    requires 0 <= i && q.start == PageSize * (i + 1)
    ensures p.nextStart == Some(q.start)
  {
  }

  /** A last page with no more ends exactly at the end of the items. */
  lemma LastPageEnds(items: seq<Json>, p: Page)
    requires p == Paginate(items, p.start, None) && !p.hasMore
    ensures p.start + p.count == |items|
  {
  }

  /** Once the last page has no more, the pages hold all the items and each
      announced `nextStart` is where the following page starts. */
  lemma WalkDone(items: seq<Json>, pages: seq<Page>)
    requires Walked(items, pages) && !pages[|pages| - 1].hasMore
    ensures Concat(pages) == items
    ensures forall i :: 0 <= i < |pages| - 1 ==> pages[i].nextStart == Some(pages[i + 1].start)
  {
    var p := pages[|pages| - 1];
    assert Followed(items, pages);
    assert p == Paginate(items, PageSize * (|pages| - 1), None);
    LastPageEnds(items, p);
    assert items[..p.start + p.count] == items;
    forall i | 0 <= i < |pages| - 1
      ensures pages[i].nextStart == Some(pages[i + 1].start)
    {
      NextLink(items, pages[i], pages[i + 1], i);
    }
  }

  /** A client that follows `nextStart` from the first page until `hasMore` is
      false. Every page it sees is `paginated_response` at the start the
      previous page announced, and the pages tile the items exactly: they
      concatenate to the items, the i-th page starts at `5 * i`, and every page
      but the last is full. */
  method FollowPages(items: seq<Json>) returns (pages: seq<Page>)
    ensures |pages| >= 1
    ensures pages[0] == Paginate(items, 0, None)
    ensures forall i :: 0 <= i < |pages| ==> pages[i] == Paginate(items, PageSize * i, None)
    ensures forall i :: 0 <= i < |pages| - 1 ==> pages[i].nextStart == Some(pages[i + 1].start)
    ensures Concat(pages) == items
    ensures forall i :: 0 <= i < |pages| ==> pages[i].start == PageSize * i
    ensures forall i :: 0 <= i < |pages| - 1 ==> pages[i].hasMore && pages[i].count == PageSize
    ensures |pages| >= 1 && !pages[|pages| - 1].hasMore
  {
    var p := Paginate(items, 0, None);
    pages := [p];
    WalkStart(items);
    while p.hasMore
      invariant Walked(items, pages) && p == pages[|pages| - 1]
      decreases |items| - p.start
    {
      WalkStep(items, pages);
      pages := pages + [Paginate(items, p.nextStart.value, None)];
      p := pages[|pages| - 1];
    }
    WalkDone(items, pages);
  }

  /** `n` numbered items, `Int(0) .. Int(n - 1)`. */
  function Numbers(n: nat): seq<Json>
  {
    seq(n, i => Int(i))
  }

  /** The worked examples of the pagination contract. */
  lemma Examples()
    ensures Paginate(Numbers(24), 0, None)
            == Page([Int(0), Int(1), Int(2), Int(3), Int(4)], 0, 5, 24, true, Some(5))
    ensures Paginate(Numbers(24), 20, None)
            == Page([Int(20), Int(21), Int(22), Int(23)], 20, 4, 24, false, None)
    ensures Paginate([], 5, None) == Page([], 0, 0, 0, false, None)
    ensures Paginate(Numbers(10), -3, None) == Paginate(Numbers(10), 0, None)
    ensures Paginate(Numbers(10), 999, None) == Paginate(Numbers(10), 9, None)
  {
    var xs := Numbers(24);
    assert xs[0..5] == [Int(0), Int(1), Int(2), Int(3), Int(4)];
    assert xs[20..24] == [Int(20), Int(21), Int(22), Int(23)];
  }
}
