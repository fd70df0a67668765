/** Cutting a listing into pages of PAGINATOR_POSTS entries, and the choice of
    the page shown for the `page` query parameter. */
module Pagination {
  import opened Seqs

  /** PAGINATOR_POSTS: the number of posts on one page of any listing. */
  const PostsPerPage: nat := 10

  function Min(a: int, b: int): int { if a <= b then a else b }

  /** The number of pages of a listing of `count` entries: an empty listing still
      has one (empty) page, otherwise the fewest pages that hold every entry. */
  function PageCount(count: nat): (r: nat)
    ensures r >= 1
    ensures count <= r * PostsPerPage
    ensures r == 1 || (r - 1) * PostsPerPage < count
  {
    if count == 0 then 1 else (count + PostsPerPage - 1) / PostsPerPage
  }

  /** Position in the listing of the first entry of page `number` (pages count from 1). */
  function PageStart(number: nat): nat
    requires 1 <= number
  {
    (number - 1) * PostsPerPage
  }

  /** Page `number` of `xs`: the entries from position (number - 1) * 10 on, at most 10. */
  function Page<T>(xs: seq<T>, number: nat): (r: seq<T>)
    requires 1 <= number
    ensures |r| <= PostsPerPage
    ensures |r| == if |xs| <= PageStart(number) then 0 else Min(PostsPerPage, |xs| - PageStart(number))
    ensures forall k :: 0 <= k < |r| ==> PageStart(number) + k < |xs| && r[k] == xs[PageStart(number) + k]
  {
    var lo := Min(PageStart(number), |xs|);
    var hi := Min(number * PostsPerPage, |xs|);
    xs[lo..hi]
  }

  /** The page number `Paginator.get_page` settles on: the first page when the
      parameter is absent or not a number, the last page when it is out of range. */
  function PageNumber(count: nat, requested: Option<int>): (n: nat)
    ensures 1 <= n <= PageCount(count)
    ensures requested.None? ==> n == 1
    ensures requested.Some? && 1 <= requested.value <= PageCount(count) ==> n == requested.value
    ensures requested.Some? && !(1 <= requested.value <= PageCount(count)) ==> n == PageCount(count)
  {
    match requested
    case None => 1
    case Some(k) => if 1 <= k <= PageCount(count) then k else PageCount(count)
  }

  /** `paginator.get_page(page_number)` over the listing `xs`. */
  function GetPage<T>(xs: seq<T>, requested: Option<int>): seq<T>
  {
    Page(xs, PageNumber(|xs|, requested))
  }

  /** Pages 1 to `k`, one after the other. */
  function Pages<T>(xs: seq<T>, k: nat): seq<T>
  {
    if k == 0 then [] else Pages(xs, k - 1) + Page(xs, k)
  }

  /** Page n + 1 starts exactly where page n ends: reading pages 1 to k in turn gives
      the first 10 * k entries of the listing, in order. */
  lemma {:induction false} PagesArePrefix<T>(xs: seq<T>, k: nat)
    ensures Pages(xs, k) == xs[..Min(k * PostsPerPage, |xs|)]
  {
    if k > 0 {
      PagesArePrefix(xs, k - 1);
      var lo := Min((k - 1) * PostsPerPage, |xs|);
      var hi := Min(k * PostsPerPage, |xs|);
      assert Page(xs, k) == xs[lo..hi];
      assert xs[..lo] + xs[lo..hi] == xs[..hi];
    }
  }

  /** Every entry of a listing is on exactly one of its pages, and in order. */
  lemma PagesCoverListing<T>(xs: seq<T>)
    ensures Pages(xs, PageCount(|xs|)) == xs
  {
    PagesArePrefix(xs, PageCount(|xs|));
  }

  /** Whatever the `page` parameter, the page shown is one of the pages that together
      make up the listing, so it holds at most 10 consecutive entries. */
  lemma ShownPageIsOneOfThePages<T>(xs: seq<T>, requested: Option<int>)
    ensures exists n :: 1 <= n <= PageCount(|xs|) && GetPage(xs, requested) == Page(xs, n)
  {
    var n := PageNumber(|xs|, requested);
    assert GetPage(xs, requested) == Page(xs, n);
  }

  /** A non-empty listing never shows an empty page. */
  lemma ShownPageNonEmpty<T>(xs: seq<T>, requested: Option<int>)
    requires |xs| > 0
    ensures |GetPage(xs, requested)| > 0
  {
  }
}
