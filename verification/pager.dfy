/** Page arithmetic of the ranked bar view: the ranked list is shown in pages
    of ten, the current page index is clamped into range before every render,
    and the previous/next buttons are disabled at the two ends. */
module Pager {

  /** How many bars one page shows. */
  const PageSize: nat := 10

  /** The page count: the fewest pages of ten that hold `n` items, and at least one page even when there are none. */
  function TotalPages(n: nat): (t: nat)
    ensures t >= 1
    ensures n <= t * PageSize
    ensures t == 1 || (t - 1) * PageSize < n
  {
    if n == 0 then 1 else (n + PageSize - 1) / PageSize
  }

  /** The current page clamped into `0 .. totalPages - 1`, for any integer
      page index, including one pushed out of range by the buttons. */
  function ClampPage(page: int, n: nat): (p: nat)
    ensures p < TotalPages(n)
    ensures 0 <= page < TotalPages(n) ==> p == page
    ensures page < 0 ==> p == 0
    ensures page >= TotalPages(n) ==> p == TotalPages(n) - 1
  {
    if page < 0 then 0 else if page >= TotalPages(n) then TotalPages(n) - 1 else page
  }

  /** The items of page `p`: ten items starting at `p * PageSize`, fewer when
      the array ends first, as JavaScript's `slice` stops at its end. */
  function PageSlice<T>(s: seq<T>, p: nat): (r: seq<T>)
    ensures |r| <= PageSize
    ensures p * PageSize < |s| ==> |r| > 0
    ensures (p + 1) * PageSize <= |s| ==> |r| == PageSize
    ensures |r| == 0 || p * PageSize + |r| <= |s|
    ensures forall i :: 0 <= i < |r| ==> r[i] == s[p * PageSize + i]
  {
    var lo := if p * PageSize <= |s| then p * PageSize else |s|;
    var hi := if (p + 1) * PageSize <= |s| then (p + 1) * PageSize else |s|;
    s[lo..hi]
  }

  /** What `getPageData` returns, together with the page index it stores back. */
  datatype PageData<T> = PageData(page: nat, totalPages: nat, rows: seq<T>)

  /** `getPageData()`: clamps the page index, then slices out that page. */
  function GetPageData<T>(page: int, sorted: seq<T>): (r: PageData<T>)
    ensures r.totalPages == TotalPages(|sorted|)
    ensures 0 <= r.page < r.totalPages
    ensures 0 <= page < r.totalPages ==> r.page == page
    ensures |r.rows| <= PageSize
    ensures |sorted| > 0 ==> |r.rows| > 0
    ensures r.page * PageSize + |r.rows| <= |sorted|
    ensures forall i :: 0 <= i < |r.rows| ==> r.rows[i] == sorted[r.page * PageSize + i]
  {
    var p := ClampPage(page, |sorted|);
    PageData(p, TotalPages(|sorted|), PageSlice(sorted, p))
  }

  /** The first `k` pages, one after another. */
  function Pages<T>(s: seq<T>, k: nat): seq<T> {
    if k == 0 then [] else Pages(s, k - 1) + PageSlice(s, k - 1)
  }

  /** The first `k` pages are the first `10 k` items. */
  lemma {:induction false} PagesArePrefix<T>(s: seq<T>, k: nat)
    ensures Pages(s, k) == s[..if k * PageSize <= |s| then k * PageSize else |s|]
  {
    if k > 0 {
      PagesArePrefix(s, k - 1);
      var a := if (k - 1) * PageSize <= |s| then (k - 1) * PageSize else |s|;
      var b := if k * PageSize <= |s| then k * PageSize else |s|;
      assert PageSlice(s, k - 1) == s[a..b];
      assert s[..a] + s[a..b] == s[..b];
    }
  }

  /** All pages in order reproduce the ranked list: paging loses, repeats and
      reorders nothing. */
  lemma PagesCoverAll<T>(s: seq<T>)
    ensures Pages(s, TotalPages(|s|)) == s
  {
    PagesArePrefix(s, TotalPages(|s|));
  }

  /** `currentPage === 0`: the state that disables Prev. */
  predicate PrevDisabled(page: int) {
    page == 0
  }

  /** The state that disables Next: the current page is the last one. */
  predicate NextDisabled(page: int, totalPages: nat) {
    page == totalPages - 1
  }

  /** On a clamped page, Prev is disabled exactly when stepping back would be
      clamped to the same page, and Next exactly when stepping forward would. */
  lemma ButtonsDisabledAtEnds(page: nat, n: nat)
    requires page < TotalPages(n)
    ensures PrevDisabled(page) <==> ClampPage(page - 1, n) == page
    ensures NextDisabled(page, TotalPages(n)) <==> ClampPage(page + 1, n) == page
  {
  }
}
