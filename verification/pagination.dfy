/** Pagination of the store listing: page count, the clamp of the current page, the
    slice of one page, and the windowed page-number bar of `generateStorePageNumbers`. */
module Pagination {

  import opened Base
  import opened Seqs

  /** One entry of the page-number bar: a page button or an ellipsis marker. */
  datatype PageToken = Page(number: int) | Ellipsis

  /** Up to this many pages, every page gets a button. */
  const MaxVisible: int := 5

  /** `Math.ceil(count / perPage)`. */
  function TotalPages(count: nat, perPage: nat): (r: nat)
    requires perPage > 0
    ensures count == 0 <==> r == 0
    ensures count > 0 ==> (r - 1) * perPage < count <= r * perPage
  {
    var r := (count + perPage - 1) / perPage;
    assert count + perPage - 1 == r * perPage + (count + perPage - 1) % perPage;
    assert (r - 1) * perPage == r * perPage - perPage;
    r
  }

  /** The "ensure current page is valid" step of `renderBooks`: a page past the end
      becomes the last page (page 1 when there are no pages); any other page is kept. */
  function ClampPage(current: int, totalPages: int): (r: int)
    ensures 1 <= current ==> 1 <= r <= Max(current, Max(1, totalPages))
    ensures 1 <= current ==> r <= Max(1, totalPages)
    ensures current <= totalPages ==> r == current
    ensures current > totalPages ==> r == Max(1, totalPages)
  {
    if current > totalPages then Max(1, totalPages) else current
  }

  /** First index of `page` in the listing. */
  function PageStart(page: int, perPage: nat): (r: int)
    ensures 1 <= page ==> 0 <= r
  {
    assert 1 <= page ==> 0 <= (page - 1) * perPage by {
      if 1 <= page {
        MulMonotone(0, page - 1, perPage);
      }
    }
    (page - 1) * perPage
  }

  /** `list.slice(startIndex, startIndex + perPage)` for the given page. */
  function PageSlice<T>(list: seq<T>, page: int, perPage: nat): (r: seq<T>)
    ensures |r| <= perPage
    ensures 1 <= page && PageStart(page, perPage) <= |list| ==>
      r == list[PageStart(page, perPage)..Min(PageStart(page, perPage) + perPage, |list|)]
  {
    var start := PageStart(page, perPage);
    SliceWindowLength(list, start, perPage);
    SliceFrom(list, start, perPage);
    JsSlice(list, start, start + perPage)
  }

  /** The pages 1..k of a listing, one after the other. */
  function PagesUpTo<T>(list: seq<T>, perPage: nat, k: nat): seq<T> {
    if k == 0 then [] else PagesUpTo(list, perPage, k - 1) + PageSlice(list, k, perPage)
  }

  lemma MulStep(k: int, p: int)
    ensures k * p == (k - 1) * p + p
  {
  }

  lemma MulMonotone(a: int, b: int, p: nat)
    requires a <= b
    ensures a * p <= b * p
  {
    assert b * p - a * p == (b - a) * p;
  }

  lemma {:induction false} PagesUpToIsPrefix<T>(list: seq<T>, perPage: nat, k: nat)
    ensures PagesUpTo(list, perPage, k) == list[..Min(k * perPage, |list|)]
  {
    if k > 0 {
      PagesUpToIsPrefix(list, perPage, k - 1);
      var start := (k - 1) * perPage;
      MulMonotone(0, k - 1, perPage);
      MulStep(k, perPage);
      assert PageSlice(list, k, perPage) == JsSlice(list, start, start + perPage);
      SliceExtendsPrefix(list, start, perPage);
    }
  }

  /** The pages partition the listing: each page holds at most `perPage` items, and
      pages 1..totalPages laid end to end give back the whole listing, every item
      exactly once and in order. */
  lemma PagesPartitionListing<T>(list: seq<T>, perPage: nat)
    requires perPage > 0
    ensures forall page :: |PageSlice(list, page, perPage)| <= perPage
    ensures PagesUpTo(list, perPage, TotalPages(|list|, perPage)) == list
  {
    var n := TotalPages(|list|, perPage);
    PagesUpToIsPrefix(list, perPage, n);
  }

  /** Every page from 1 to the page count is non-empty; all but the last are full. */
  lemma PagesAreNonEmpty<T>(list: seq<T>, perPage: nat, page: int)
    requires perPage > 0
    requires 1 <= page <= TotalPages(|list|, perPage)
    ensures 0 < |PageSlice(list, page, perPage)| <= perPage
    ensures page < TotalPages(|list|, perPage) ==> |PageSlice(list, page, perPage)| == perPage
  {
    var n := TotalPages(|list|, perPage);
    var start := PageStart(page, perPage);
    MulMonotone(page - 1, n - 1, perPage);
    assert start < |list|;
    if page < n {
      MulStep(page, perPage);
      MulMonotone(page, n - 1, perPage);
      assert start + perPage <= |list|;
    }
  }

  /** Page buttons `lo`, `lo + 1`, ..., `hi`. */
  function PageRange(lo: int, hi: int): (r: seq<PageToken>)
    decreases hi - lo
    ensures |r| == if lo <= hi then hi - lo + 1 else 0
    ensures forall k :: 0 <= k < |r| ==> r[k] == Page(lo + k)
  {
    if lo > hi then [] else [Page(lo)] + PageRange(lo + 1, hi)
  }

  /** The window loop of `generateStorePageNumbers`: pushes each page from `i` to `end`
      that is not already in the bar. */
  function PushPages(pages: seq<PageToken>, i: int, end: int): seq<PageToken>
    decreases end - i
  {
    if i > end then pages
    else PushPages(if Page(i) in pages then pages else pages + [Page(i)], i + 1, end)
  }

  /** `generateStorePageNumbers(currentPage, totalPages)`. */
  function PageNumbers(current: int, total: int): seq<PageToken> {
    if total <= MaxVisible then PageRange(1, total)
    else
      var head := [Page(1)] + (if current > 3 then [Ellipsis] else []);
      var window := PushPages(head, Max(2, current - 1), Min(total - 1, current + 1));
      var tail := window + (if current < total - 2 then [Ellipsis] else []);
      if Page(total) in tail then tail else tail + [Page(total)]
  }

  /** Pushing pages that are all larger than every page already in the bar never
      meets the duplicate check, so it appends the whole range. */
  lemma {:induction false} PushPagesFresh(pages: seq<PageToken>, i: int, end: int)
    requires forall k :: 0 <= k < |pages| && pages[k].Page? ==> pages[k].number < i
    ensures PushPages(pages, i, end) == pages + PageRange(i, end)
    decreases end - i
  {
    if i <= end {
      assert Page(i) !in pages by {
        forall k | 0 <= k < |pages|
          ensures pages[k] != Page(i)
        {
        }
      }
      PushPagesFresh(pages + [Page(i)], i + 1, end);
      assert PageRange(i, end) == [Page(i)] + PageRange(i + 1, end);
    }
  }

  /** With at most five pages the bar is exactly 1..totalPages in order (empty when
      there are no pages). */
  lemma PageNumbersFew(current: int, total: int)
    requires total <= MaxVisible
    ensures |PageNumbers(current, total)| == Max(total, 0)
    ensures forall k :: 0 <= k < |PageNumbers(current, total)| ==> PageNumbers(current, total)[k] == Page(k + 1)
  {
  }

  /** The seven shapes the bar takes for more than five pages. */
  lemma PageNumbersShapes(current: int, total: int)
    requires MaxVisible < total && 1 <= current <= total
    ensures var r := PageNumbers(current, total);
      if current == 1 then r == [Page(1), Page(2), Ellipsis, Page(total)]
      else if current == 2 then r == [Page(1), Page(2), Page(3), Ellipsis, Page(total)]
      else if current == 3 then r == [Page(1), Page(2), Page(3), Page(4), Ellipsis, Page(total)]
      else if current < total - 2 then
        r == [Page(1), Ellipsis, Page(current - 1), Page(current), Page(current + 1), Ellipsis, Page(total)]
      else if current == total - 2 then
        r == [Page(1), Ellipsis, Page(total - 3), Page(total - 2), Page(total - 1), Page(total)]
      else if current == total - 1 then r == [Page(1), Ellipsis, Page(total - 2), Page(total - 1), Page(total)]
      else r == [Page(1), Ellipsis, Page(total - 1), Page(total)]
  {
    PageNumbersLayout(current, total);
    var lo := Max(2, current - 1);
    var hi := Min(total - 1, current + 1);
    if hi - lo == 0 {
      assert PageRange(lo, hi) == [Page(lo)];
    } else if hi - lo == 1 {
      assert PageRange(lo, hi) == [Page(lo), Page(lo + 1)];
    } else {
      assert PageRange(lo, hi) == [Page(lo), Page(lo + 1), Page(lo + 2)];
    }
  }

  /** For more than five pages the bar is the first page, an optional ellipsis, the
      window around the current page, an optional ellipsis and the last page. */
  lemma PageNumbersLayout(current: int, total: int)
    requires MaxVisible < total && 1 <= current <= total
    ensures PageNumbers(current, total)
      == [Page(1)] + (if current > 3 then [Ellipsis] else [])
         + PageRange(Max(2, current - 1), Min(total - 1, current + 1))
         + (if current < total - 2 then [Ellipsis] else []) + [Page(total)]
  {
    var head := [Page(1)] + (if current > 3 then [Ellipsis] else []);
    var lo := Max(2, current - 1);
    var hi := Min(total - 1, current + 1);
    PushPagesFresh(head, lo, hi);
    var window := head + PageRange(lo, hi);
    var tail := window + (if current < total - 2 then [Ellipsis] else []);
    assert Page(total) !in tail by {
      forall k | 0 <= k < |tail|
        ensures tail[k] != Page(total)
      {
      }
    }
  }

  /** The pages a bar for `current` of `total` must show: the first, the last, and the
      current page with its two neighbours. */
  predicate Shown(p: int, current: int, total: int) {
    1 <= p <= total && (p == 1 || p == total || current - 1 <= p <= current + 1)
  }

  predicate NoAdjacentEllipses(r: seq<PageToken>) {
    forall k :: 0 <= k < |r| - 1 ==> r[k].Page? || r[k + 1].Page?
  }

  predicate PagesIncrease(r: seq<PageToken>) {
    forall i, j :: 0 <= i < j < |r| && r[i].Page? && r[j].Page? ==> r[i].number < r[j].number
  }

  /** Two neighbouring buttons are consecutive pages. */
  predicate ButtonsConsecutive(r: seq<PageToken>) {
    forall k :: 0 <= k < |r| - 1 && r[k].Page? && r[k + 1].Page? ==> r[k + 1].number == r[k].number + 1
  }

  /** An ellipsis always sits between two buttons and stands for at least one hidden page. */
  predicate EllipsesMarkGaps(r: seq<PageToken>) {
    forall k :: 0 <= k < |r| && r[k].Ellipsis? ==>
      0 < k < |r| - 1 && r[k - 1].Page? && r[k + 1].Page? && r[k + 1].number > r[k - 1].number + 1
  }

  /** For more than five pages and a current page in range, the bar starts at page 1,
      ends at the last page and has at most seven entries. */
  lemma PageNumbersEnds(current: int, total: int)
    requires MaxVisible < total && 1 <= current <= total
    ensures var r := PageNumbers(current, total);
      0 < |r| <= 7 && r[0] == Page(1) && r[|r| - 1] == Page(total)
  {
    PageNumbersShapes(current, total);
  }

  /** ... and shows exactly the first page, the last page, and the current page with
      its two neighbours: the current page is always among them. */
  lemma PageNumbersShowsWindow(current: int, total: int)
    requires MaxVisible < total && 1 <= current <= total
    ensures forall p :: Page(p) in PageNumbers(current, total) <==> Shown(p, current, total)
    ensures Page(current) in PageNumbers(current, total)
  {
    PageNumbersShapes(current, total);
  }

  /** ... with page numbers strictly increasing, so that no page appears twice ... */
  lemma PageNumbersIncrease(current: int, total: int)
    requires MaxVisible < total && 1 <= current <= total
    ensures PagesIncrease(PageNumbers(current, total))
  {
    PageNumbersShapes(current, total);
  }

  /** ... never two ellipses side by side ... */
  lemma PageNumbersNoAdjacentEllipses(current: int, total: int)
    requires MaxVisible < total && 1 <= current <= total
    ensures NoAdjacentEllipses(PageNumbers(current, total))
  {
    PageNumbersShapes(current, total);
  }

  /** ... buttons next to each other only for consecutive pages ... */
  lemma PageNumbersConsecutive(current: int, total: int)
    requires MaxVisible < total && 1 <= current <= total
    ensures ButtonsConsecutive(PageNumbers(current, total))
  {
    PageNumbersShapes(current, total);
  }

  /** ... and an ellipsis exactly where pages are hidden. */
  lemma PageNumbersEllipsisMarksGap(current: int, total: int)
    requires MaxVisible < total && 1 <= current <= total
    ensures EllipsesMarkGaps(PageNumbers(current, total))
  {
    PageNumbersShapes(current, total);
  }

  /** The first page of ten: buttons 1 and 2, a gap, and page 10. */
  lemma PageNumbersFirstOfTen()
    ensures PageNumbers(1, 10) == [Page(1), Page(2), Ellipsis, Page(10)]
  {
    PageNumbersShapes(1, 10);
  }

  /** Page 5 of ten: page 1, a gap, pages 4 to 6, a gap, and page 10. */
  lemma PageNumbersMiddleOfTen()
    ensures PageNumbers(5, 10) == [Page(1), Ellipsis, Page(4), Page(5), Page(6), Ellipsis, Page(10)]
  {
    PageNumbersShapes(5, 10);
  }
}
