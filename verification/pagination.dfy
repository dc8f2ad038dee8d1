/**
 Page arithmetic of the paged catalogue: the page count, the slice shown for
 a page, the window of numbered buttons and the controls around it.
 */
module Pagination {

  /** Resources per page (`CONFIG.ITEMS_PER_PAGE`). */
  const PageSize: nat := 50

  /** At most this many numbered page buttons are shown at once. */
  const MaxVisiblePages: nat := 5

  function Min(a: int, b: int): int { if a <= b then a else b }

  function Max(a: int, b: int): int { if a >= b then a else b }

  /** `Math.ceil(n / PageSize)`: the least page count whose pages hold `n` items. */
  function TotalPages(n: nat): (t: nat)
    ensures t * PageSize >= n
    ensures t > 0 ==> (t - 1) * PageSize < n
    ensures t == 0 <==> n == 0
  {
    (n + PageSize - 1) / PageSize
  }

  /** How `Array.prototype.slice` reads one bound: negative counts from the end, and it is clamped to `[0, n]`. */
  function SliceBound(k: int, n: nat): (i: nat)
    ensures i <= n
    ensures 0 <= k <= n ==> i == k
  {
    if k < 0 then Max(n + k, 0) else Min(k, n)
  }

  /** `s.slice(start, end)`. */
  function Slice<T>(s: seq<T>, start: int, end: int): seq<T>
  {
    var from := SliceBound(start, |s|);
    var to := SliceBound(end, |s|);
    if from < to then s[from..to] else []
  }

  /** The resources shown on page `page`: `slice((page - 1) * PageSize, (page - 1) * PageSize + PageSize)`. */
  function PageSlice<T>(s: seq<T>, page: int): seq<T>
  {
    var startIndex := (page - 1) * PageSize;
    Slice(s, startIndex, startIndex + PageSize)
  }

  /**
   For a page in range the slice is the run of the list from `(page - 1) * PageSize`
   up to `page * PageSize` or the end of the list; it is never empty, and every page
   but the last is full.
   */
  lemma PageSliceInRange<T>(s: seq<T>, page: int)
    requires 1 <= page <= TotalPages(|s|)
    ensures (page - 1) * PageSize < |s|
    ensures PageSlice(s, page) == s[(page - 1) * PageSize .. Min(page * PageSize, |s|)]
    ensures 1 <= |PageSlice(s, page)| <= PageSize
    ensures page < TotalPages(|s|) ==> |PageSlice(s, page)| == PageSize
  {
    var t := TotalPages(|s|);
    assert (page - 1) * PageSize <= (t - 1) * PageSize;
    if page < t {
      assert page * PageSize <= (t - 1) * PageSize;
    }
  }

  /** A page past the last one shows nothing. */
  lemma PageSliceBeyondEnd<T>(s: seq<T>, page: int)
    requires page > TotalPages(|s|)
    ensures PageSlice(s, page) == []
  {
    assert (page - 1) * PageSize >= TotalPages(|s|) * PageSize;
  }

  /** The pages `1..k` laid end to end. */
  function PagesUpTo<T>(s: seq<T>, k: nat): seq<T>
  {
    if k == 0 then [] else PagesUpTo(s, k - 1) + PageSlice(s, k)
  }

  lemma {:induction false} PagesUpToIsPrefix<T>(s: seq<T>, k: nat)
    ensures PagesUpTo(s, k) == s[..Min(k * PageSize, |s|)]
  {
    if k > 0 {
      PagesUpToIsPrefix(s, k - 1);
      var lo := Min((k - 1) * PageSize, |s|);
      var hi := Min(k * PageSize, |s|);
      if (k - 1) * PageSize < |s| {
        assert PageSlice(s, k) == s[lo..hi];
      } else {
        assert PageSlice(s, k) == [];
        assert lo == hi;
      }
      assert s[..lo] + s[lo..hi] == s[..hi];
    }
  }

  /** Concatenating the slices of pages `1..TotalPages` gives back the list: no gaps, no overlaps. */
  lemma {:induction false} PagesPartition<T>(s: seq<T>)
    ensures PagesUpTo(s, TotalPages(|s|)) == s
  {
    PagesUpToIsPrefix(s, TotalPages(|s|));
    assert s[..|s|] == s;
  }

  /** The first and last numbered button shown. */
  datatype Span = Span(start: int, end: int)

  /**
   `startPage`/`endPage` of the pagination bar: centred on the current page when
   possible, shifted to stay inside `1..total`.
   */
  function Window(current: int, total: int): (w: Span)
    ensures total >= 1 ==> 1 <= w.start <= w.end <= total
    ensures 1 <= current <= total ==> w.start <= current <= w.end
    ensures 1 <= current <= total ==> w.end - w.start + 1 == Min(MaxVisiblePages, total)
    ensures 1 <= current <= total ==>
      w.start == Max(1, Min(current - MaxVisiblePages / 2, total - MaxVisiblePages + 1))
  {
    var start := Max(1, current - MaxVisiblePages / 2);
    var end := Min(total, start + MaxVisiblePages - 1);
    if end - start < MaxVisiblePages - 1 then Span(Max(1, end - MaxVisiblePages + 1), end)
    else Span(start, end)
  }

  /** The previous/next buttons: whether they are disabled and which page they ask for. */
  datatype NavButton = NavButton(disabled: bool, target: int)

  datatype PageButton = PageButton(page: int, active: bool)

  /**
   The pagination bar. `firstButton` is the "1" button before the window, `lastButton`
   the total-pages button after it; the ellipses stand for pages without a button.
   */
  datatype Controls =
    | Hidden
    | Shown(previous: NavButton, firstButton: bool, leadingEllipsis: bool,
            buttons: seq<PageButton>,
            trailingEllipsis: bool, lastButton: bool, next: NavButton)

  /** The numbered buttons `from..to`, the current page's marked active. */
  function Buttons(first: int, last: int, current: int): (bs: seq<PageButton>)
    ensures |bs| == Max(0, last - first + 1)
    ensures forall i :: 0 <= i < |bs| ==> bs[i].page == first + i
    ensures forall i :: 0 <= i < |bs| ==> (bs[i].active <==> bs[i].page == current)
    decreases last - first + 1
  {
    if first > last then [] else [PageButton(first, first == current)] + Buttons(first + 1, last, current)
  }

  /**
   `renderPagination(total)` with the current page `current`: nothing for a single
   page; otherwise the window's buttons, flanked by the edge buttons and ellipses the
   window leaves room for, between previous and next buttons that ask for the
   neighbouring pages and are disabled at the ends.
   */
  function RenderControls(current: int, total: int): (c: Controls)
    ensures c.Hidden? <==> total <= 1
    ensures c.Shown? ==>
      && c.previous.target == current - 1 && c.next.target == current + 1
      && (c.previous.disabled <==> current == 1) && (c.next.disabled <==> current == total)
    ensures c.Shown? && 1 <= current <= total ==>
      && |c.buttons| == Min(MaxVisiblePages, total)
      && (c.firstButton <==> c.buttons[0].page > 1)
      && (c.leadingEllipsis <==> c.buttons[0].page > 2)
      && (c.lastButton <==> c.buttons[|c.buttons| - 1].page < total)
      && (c.trailingEllipsis <==> c.buttons[|c.buttons| - 1].page < total - 1)
  {
    if total <= 1 then Hidden
    else
      var w := Window(current, total);
      Shown(NavButton(current == 1, current - 1),
            w.start > 1, w.start > 2,
            Buttons(w.start, w.end, current),
            w.end < total - 1, w.end < total,
            NavButton(current == total, current + 1))
  }

  /** The pages that have a numbered button, including the edge buttons. */
  function NumberedPages(c: Controls, total: int): set<int>
  {
    if c.Hidden? then {}
    else
      (if c.firstButton then {1} else {})
      + (set i | 0 <= i < |c.buttons| :: c.buttons[i].page)
      + (if c.lastButton then {total} else {})
  }

  /** The pages a click on an enabled control of the bar asks for. */
  function Targets(c: Controls, total: int): set<int>
  {
    if c.Hidden? then {}
    else
      (if c.previous.disabled then {} else {c.previous.target})
      + NumberedPages(c, total)
      + (if c.next.disabled then {} else {c.next.target})
  }

  /**
   The shape of the bar for a current page in range: at most five numbered buttons in
   ascending order with exactly the current page active, the edge buttons and ellipses
   placed as the window requires, and the previous/next buttons disabled at the ends.
   */
  lemma ControlsShape(current: int, total: int)
    requires 1 <= current <= total && total > 1
    ensures var c := RenderControls(current, total);
      var w := Window(current, total);
      && c.Shown?
      && |c.buttons| == Min(MaxVisiblePages, total)
      && c.buttons[0].page == w.start && c.buttons[|c.buttons| - 1].page == w.end
      && (forall i, j :: 0 <= i < j < |c.buttons| ==> c.buttons[i].page < c.buttons[j].page)
      && (exists i :: 0 <= i < |c.buttons| && c.buttons[i].page == current && c.buttons[i].active)
      && (forall i :: 0 <= i < |c.buttons| && c.buttons[i].active ==> c.buttons[i].page == current)
      && (c.firstButton <==> w.start > 1) && (c.leadingEllipsis <==> w.start > 2)
      && (c.lastButton <==> w.end < total) && (c.trailingEllipsis <==> w.end < total - 1)
      && (c.previous.disabled <==> current == 1) && (c.next.disabled <==> current == total)
  {
    var c := RenderControls(current, total);
    var w := Window(current, total);
    assert c.buttons[current - w.start].page == current;
  }

  /**
   Every page of `1..total` either has a numbered button or lies in the gap an
   ellipsis stands for, and an ellipsis never stands for an empty gap. Page 1 and
   the last page always have a button.
   */
  lemma ControlsCoverAllPages(current: int, total: int)
    requires 1 <= current <= total && total > 1
    ensures var c := RenderControls(current, total);
      var w := Window(current, total);
      && (forall k :: 1 <= k <= total ==>
            (k in NumberedPages(c, total) <==>
             !((c.leadingEllipsis && 1 < k < w.start) || (c.trailingEllipsis && w.end < k < total))))
      && (c.leadingEllipsis ==> 2 !in NumberedPages(c, total))
      && (c.trailingEllipsis ==> total - 1 !in NumberedPages(c, total))
      && 1 in NumberedPages(c, total) && total in NumberedPages(c, total)
  {
    var c := RenderControls(current, total);
    var w := Window(current, total);
    var pages := set i | 0 <= i < |c.buttons| :: c.buttons[i].page;
    assert forall k :: k in pages <==> w.start <= k <= w.end by {
      forall k | w.start <= k <= w.end
        ensures k in pages
      {
        assert c.buttons[k - w.start].page == k;
      }
    }
  }

  /**
   Every enabled control of the bar leads to a page in `1..total`, so clicking keeps the
   current page in range; the neighbouring pages are reachable whenever they exist.
   */
  lemma ControlsStayInRange(current: int, total: int)
    requires 1 <= current <= total && total > 1
    ensures forall p :: p in Targets(RenderControls(current, total), total) ==> 1 <= p <= total
    ensures current > 1 ==> current - 1 in Targets(RenderControls(current, total), total)
    ensures current < total ==> current + 1 in Targets(RenderControls(current, total), total)
  {
    var c := RenderControls(current, total);
    var w := Window(current, total);
    assert forall i :: 0 <= i < |c.buttons| ==> w.start <= c.buttons[i].page <= w.end;
  }
}
