/** The page navigation of `src/components/ui/pagination.tsx`: the window of at most five
    page numbers around the current page, and which of the surrounding buttons and ellipses
    are shown or disabled. The rendered markup is reduced to a `View`. */
module Pagination {
  import opened JsText

  const MaxVisiblePages := 5

  function Max(a: int, b: int): int { if a >= b then a else b }
  function Min(a: int, b: int): int { if a <= b then a else b }

  /** A navigation button: the page it asks for and whether it is disabled. */
  datatype Button = Button(target: int, disabled: bool)

  /** What the component renders when it renders anything. */
  datatype View = View(
    first: Button, previous: Button,
    leadingOne: bool, leadingEllipsis: bool,
    pages: seq<int>,
    trailingEllipsis: bool, trailingLast: bool,
    next: Button, last: Button)

  /** `startPage` once the window has been pulled back from the end. */
  function StartPage(current: int, total: int): int
  {
    var start := Max(1, current - MaxVisiblePages / 2);
    var end := Min(total, start + MaxVisiblePages - 1);
    if end - start < MaxVisiblePages - 1 then Max(1, end - MaxVisiblePages + 1) else start
  }

  /** `endPage`. */
  function EndPage(current: int, total: int): int
  {
    Min(total, Max(1, current - MaxVisiblePages / 2) + MaxVisiblePages - 1)
  }

  /** The pages `lo` to `hi`, ascending. */
  function Range(lo: int, hi: int): (r: seq<int>)
    ensures |r| == if hi < lo then 0 else hi - lo + 1
    ensures forall k :: 0 <= k < |r| ==> r[k] == lo + k
    decreases hi - lo
  {
    if hi < lo then [] else Range(lo, hi - 1) + [hi]
  }

  /** The component's output for `currentPage` and `totalPages`; `None` is `null`, which it
      returns for a single page or none. First and previous are disabled exactly on the first
      page, next and last exactly on the last; otherwise they move by one page or to the
      ends. */
  function ViewOf(current: int, total: int): (r: Option<View>)
    ensures r.None? <==> total <= 1
    ensures r.Some? ==>
      && (r.value.first.disabled <==> current == 1) && (r.value.previous.disabled <==> current == 1)
      && (r.value.next.disabled <==> current == total) && (r.value.last.disabled <==> current == total)
      && r.value.first.target == 1 && r.value.previous.target == current - 1
      && r.value.next.target == current + 1 && r.value.last.target == total
  {
    var start, end := StartPage(current, total), EndPage(current, total);
    if total <= 1 then None
    else Some(View(
      Button(1, current == 1), Button(current - 1, current == 1),
      start > 1, start > 2,
      Range(start, end),
      end < total - 1, end < total,
      Button(current + 1, current == total), Button(total, current == total)))
  }

  /** `Pagination({currentPage, totalPages})`: the window, the loop that lists its pages, and
      the rendered buttons. */
  method Paginate(currentPage: int, totalPages: int) returns (view: Option<View>)
    ensures view == ViewOf(currentPage, totalPages)
  {
    var pages: seq<int> := [];
    var startPage := Max(1, currentPage - MaxVisiblePages / 2);
    var endPage := Min(totalPages, startPage + MaxVisiblePages - 1);
    if endPage - startPage < MaxVisiblePages - 1 {
      startPage := Max(1, endPage - MaxVisiblePages + 1);
    }
    var i := startPage;
    while i <= endPage
      invariant startPage <= i <= Max(startPage, endPage + 1)
      invariant pages == Range(startPage, i - 1)
      decreases endPage - i
    {
      assert Range(startPage, i) == Range(startPage, i - 1) + [i];
      pages := pages + [i];
      i := i + 1;
    }
    assert startPage == StartPage(currentPage, totalPages) && endPage == EndPage(currentPage, totalPages);
    if totalPages <= 1 {
      return None;
    }
    view := Some(View(
      Button(1, currentPage == 1), Button(currentPage - 1, currentPage == 1),
      startPage > 1, startPage > 2,
      pages,
      endPage < totalPages - 1, endPage < totalPages,
      Button(currentPage + 1, currentPage == totalPages), Button(totalPages, currentPage == totalPages)));
  }

  /** For a current page within range the window lies within the pages, holds the current
      page, and shows five pages, or all of them when there are fewer. */
  lemma WindowBounds(current: int, total: int)
    requires 1 <= current <= total
    ensures var start, end := StartPage(current, total), EndPage(current, total);
      && 1 <= start <= current <= end <= total
      && end - start + 1 == Min(MaxVisiblePages, total)
  {
  }

  /** The listed pages are the window, one after the other. */
  lemma PagesAreWindow(current: int, total: int)
    requires 1 <= current <= total && total > 1
    ensures var v := ViewOf(current, total).value;
      && |v.pages| == Min(MaxVisiblePages, total)
      && v.pages[0] == StartPage(current, total) && v.pages[|v.pages| - 1] == EndPage(current, total)
      && current in v.pages
      && (forall k :: 0 <= k < |v.pages| - 1 ==> v.pages[k + 1] == v.pages[k] + 1)
  {
    WindowBounds(current, total);
    var v := ViewOf(current, total).value;
    assert v.pages[current - StartPage(current, total)] == current;
  }

  /** Where the edge buttons and ellipses show, in terms of the current page: the leading
      "1" once page 1 has left the window, an ellipsis once page 2 has too, and the same at
      the other end. */
  lemma EdgesByPosition(current: int, total: int)
    requires 1 <= current <= total && total > 1
    ensures var v := ViewOf(current, total).value;
      && (v.leadingOne <==> total > 5 && current > 3)
      && (v.leadingEllipsis <==> total > 6 && current > 4)
      && (v.trailingLast <==> total > 5 && current < total - 2)
      && (v.trailingEllipsis <==> total > 6 && current < total - 3)
  {
  }

  /** Every page can be reached: it is listed, or it is the first or last page with its own
      button, or it lies in a gap that an ellipsis marks. */
  lemma EveryPageAccountedFor(current: int, total: int, p: int)
    requires 1 <= current <= total && total > 1 && 1 <= p <= total
    ensures var v := ViewOf(current, total).value;
      || p in v.pages
      || (p == 1 && v.leadingOne)
      || (p == total && v.trailingLast)
      || (1 < p < v.pages[0] && v.leadingEllipsis)
      || (v.pages[|v.pages| - 1] < p < total && v.trailingEllipsis)
  {
    PagesAreWindow(current, total);
    var v := ViewOf(current, total).value;
    var start := StartPage(current, total);
    if start <= p <= EndPage(current, total) {
      assert v.pages[p - start] == p;
    }
  }
}
