/**
 * Pure semantics of the event list's navigation (src/tui/event_list.rs): the
 * window over the items, the selected row inside it, the horizontal offset
 * and the bookkeeping of a render pass. The class EventLists.EventList makes
 * these updates in place, and each of its methods is proved against the
 * function of the same name here; the lemmas state what the navigation
 * promises.
 */
module Viewport {
  import opened Wrappers

  function Min(a: int, b: int): int { if a <= b then a else b }

  function Max(a: int, b: int): int { if a <= b then b else a }

  /** `usize::saturating_sub` */
  function SaturatingSub(a: nat, b: nat): nat { if a >= b then a - b else 0 }

  /** The half-open window `[start, end)` into the items. */
  type Range = (nat, nat)

  /** Number of rows a window spans; only asked of windows that do not run backwards. */
  function Width(w: Range): nat
    requires w.0 <= w.1
  {
    w.1 - w.0
  }

  /**
   * What every navigation step keeps: the window does not run backwards and
   * starts inside the items. Its end may lie past the last item.
   */
  predicate InItems(w: Range, len: nat) {
    w.0 <= w.1 && w.0 <= len
  }

  /**
   * The window invariant meets the underflow guards of `previous_window` and
   * `page_up` and the bound of the slice taken by `Window`.
   */
  lemma InItemsGuards(w: Range, len: nat, pageLen: nat)
    requires InItems(w, len)
    ensures CanSlideUp(w) && CanPageUp(w, pageLen) && w.0 <= Min(w.1, len)
  {
  }

  // ---------------------------------------------------------------------
  // Sliding the window by one item
  // ---------------------------------------------------------------------

  /** `next_window`: the new window, and whether it moved. */
  function NextWindow(w: Range, len: nat): (r: (Range, bool))
    ensures r.1 <==> w.1 < len
    ensures r.1 ==> r.0 == (w.0 + 1, w.1 + 1)
    ensures !r.1 ==> r.0 == w
    ensures w.0 <= w.1 ==> r.0.0 <= r.0.1 && Width(r.0) == Width(w)
    ensures InItems(w, len) ==> InItems(r.0, len)
  {
    if w.1 < len then ((w.0 + 1, w.1 + 1), true) else (w, false)
  }

  /** `previous_window` decrements `window.1` as well, which must not underflow. */
  predicate CanSlideUp(w: Range) {
    w.0 > 0 ==> w.1 > 0
  }

  /** `previous_window`: the new window, and whether it moved. */
  function PreviousWindow(w: Range): (r: (Range, bool))
    requires CanSlideUp(w)
    ensures r.1 <==> w.0 > 0
    ensures r.1 ==> r.0 == (w.0 - 1, w.1 - 1)
    ensures !r.1 ==> r.0 == w
    ensures w.0 <= w.1 ==> r.0.0 <= r.0.1 && Width(r.0) == Width(w) && r.0.0 <= w.0
  {
    if w.0 > 0 then ((w.0 - 1, w.1 - 1), true) else (w, false)
  }

  /** Sliding down and sliding back up are inverse to each other. */
  lemma SlidingIsReversible(w: Range, len: nat)
    requires w.0 <= w.1
    ensures NextWindow(w, len).1 ==> PreviousWindow(NextWindow(w, len).0) == (w, true)
    ensures w.0 > 0 && w.1 <= len ==> NextWindow(PreviousWindow(w).0, len) == (w, true)
  {
  }

  // ---------------------------------------------------------------------
  // Moving the selection
  // ---------------------------------------------------------------------

  /** The window together with the selected row, relative to the window. */
  datatype Cursor = Cursor(window: Range, selected: Option<nat>)

  /**
   * With a row selected, `next` computes `window.1 - window.0 - 1` and
   * `nr_items_in_window - 1` in `usize`; neither may underflow.
   */
  predicate CanStepDown(c: Cursor, nrItemsInWindow: nat) {
    c.selected.Some? ==> c.window.0 < c.window.1 && nrItemsInWindow > 0
  }

  /** `next` on the window and selection; `lastSelected` is the row `unselect` remembered. */
  function Next(c: Cursor, lastSelected: Option<nat>, len: nat, nrItemsInWindow: nat): (r: Cursor)
    requires CanStepDown(c, nrItemsInWindow)
    ensures r.selected.Some?
    // with nothing selected, the remembered row (or row 0) comes back and the window stays
    ensures c.selected.None? ==> r == Cursor(c.window, Some(lastSelected.UnwrapOr(0)))
    // a selected row advances by at most one and is clamped to the last rendered row
    ensures c.selected.Some? ==>
              r.selected.value < nrItemsInWindow && r.selected.value <= c.selected.value + 1
    ensures c.selected.Some? && c.selected.value < Width(c.window) - 1 ==>
              r == Cursor(c.window, Some(Min(c.selected.value + 1, nrItemsInWindow - 1)))
    // the window moves only from the last row, by one item, while items remain below it
    ensures r.window != c.window ==>
              c.selected.Some? && c.selected.value >= Width(c.window) - 1 &&
              c.window.1 < len && r.window == (c.window.0 + 1, c.window.1 + 1)
    ensures c.selected.Some? && c.selected.value >= Width(c.window) - 1 ==>
              r == Cursor(NextWindow(c.window, len).0, Some(Min(c.selected.value, nrItemsInWindow - 1)))
    ensures c.window.0 <= c.window.1 ==> r.window.0 <= r.window.1 && Width(r.window) == Width(c.window)
    ensures InItems(c.window, len) ==> InItems(r.window, len)
  {
    match c.selected
    case Some(i) =>
      if i >= c.window.1 - c.window.0 - 1 then
        Cursor(NextWindow(c.window, len).0, Some(Min(i, nrItemsInWindow - 1)))
      else
        Cursor(c.window, Some(Min(i + 1, nrItemsInWindow - 1)))
    case None => Cursor(c.window, Some(lastSelected.UnwrapOr(0)))
  }

  /** With row 0 selected, `previous` calls `previous_window`, which must not underflow. */
  predicate CanStepUp(c: Cursor) {
    c.selected == Some(0) ==> CanSlideUp(c.window)
  }

  /** `previous` on the window and selection. */
  function Previous(c: Cursor, lastSelected: Option<nat>): (r: Cursor)
    requires CanStepUp(c)
    ensures r.selected.Some?
    ensures c.selected.None? ==> r == Cursor(c.window, Some(lastSelected.UnwrapOr(0)))
    ensures c.selected.Some? && c.selected.value > 0 ==>
              r == Cursor(c.window, Some(c.selected.value - 1))
    // from row 0 the window slides up by one while items remain above it
    ensures c.selected == Some(0) ==> r == Cursor(PreviousWindow(c.window).0, Some(0))
    ensures c.window.0 <= c.window.1 ==>
              r.window.0 <= r.window.1 && Width(r.window) == Width(c.window) && r.window.0 <= c.window.0
  {
    match c.selected
    case Some(i) =>
      if i == 0 then Cursor(PreviousWindow(c.window).0, Some(0))
      else Cursor(c.window, Some(i - 1))
    case None => Cursor(c.window, Some(lastSelected.UnwrapOr(0)))
  }

  /** `unselect`: the cursor with no selection, and the row it remembers. */
  function Unselect(c: Cursor): (r: (Cursor, Option<nat>))
    ensures r.0.window == c.window && r.0.selected.None?
    ensures r.1 == c.selected
  {
    (Cursor(c.window, None), c.selected)
  }

  /**
   * `unselect` followed by `next` or `previous` gives back the row that was
   * selected (row 0 if there was none), in the same window.
   */
  lemma UnselectThenMoveRestores(c: Cursor, len: nat, nrItemsInWindow: nat)
    ensures var (u, remembered) := Unselect(c);
            && Next(u, remembered, len, nrItemsInWindow) == Cursor(c.window, Some(c.selected.UnwrapOr(0)))
            && Previous(u, remembered) == Cursor(c.window, Some(c.selected.UnwrapOr(0)))
  {
  }

  /**
   * On a fresh list, whose window is (0, 0), a first `next` selects row 0 and
   * a second one would compute `window.1 - window.0 - 1` below zero.
   */
  lemma SecondNextOnFreshListUnderflows(len: nat, nrItemsInWindow: nat)
    ensures var first := Next(Cursor((0, 0), None), None, len, nrItemsInWindow);
            first == Cursor((0, 0), Some(0)) && !CanStepDown(first, nrItemsInWindow)
  {
  }

  /**
   * The states where `next` changes nothing: the last row, inside the rows
   * the last render counted, is selected in a window reaching the end of the
   * items, or the last rendered row is selected in a window showing fewer
   * rows than it spans.
   */
  lemma NextFixedPoints(c: Cursor, lastSelected: Option<nat>, len: nat, nrItemsInWindow: nat)
    requires c.selected.Some? && CanStepDown(c, nrItemsInWindow)
    ensures Next(c, lastSelected, len, nrItemsInWindow) == c <==>
              var i := c.selected.value;
              && (i >= Width(c.window) - 1 ==> c.window.1 >= len && i < nrItemsInWindow)
              && (i < Width(c.window) - 1 ==> i == nrItemsInWindow - 1)
  {
  }

  /** `next` pressed `n` times, with no render in between changing `nrItemsInWindow`. */
  function NextTimes(c: Cursor, lastSelected: Option<nat>, len: nat, nrItemsInWindow: nat, n: nat): (r: Cursor)
    requires c.window.0 < c.window.1 && nrItemsInWindow > 0
    ensures r.window.0 < r.window.1 && Width(r.window) == Width(c.window)
    ensures c.selected.Some? || n > 0 ==> r.selected.Some?
    ensures InItems(c.window, len) ==> InItems(r.window, len)
    decreases n
  {
    if n == 0 then c
    else NextTimes(Next(c, lastSelected, len, nrItemsInWindow), lastSelected, len, nrItemsInWindow, n - 1)
  }

  /**
   * A bound on how many more presses of `next` can still change something:
   * the items left below the window, plus the rows the selection can still
   * advance, plus one while the selection lies past the rendered rows.
   */
  function DescentLeft(c: Cursor, len: nat, nrItemsInWindow: nat): nat
    requires c.selected.Some? && c.window.0 < c.window.1 && nrItemsInWindow > 0
  {
    var i := c.selected.value;
    SaturatingSub(len, c.window.1)
    + (if i >= nrItemsInWindow then 1 else 0)
    + SaturatingSub(Min(Width(c.window) - 1, nrItemsInWindow - 1), i)
  }

  /** Every press of `next` that changes something lowers DescentLeft. */
  lemma NextDescends(c: Cursor, lastSelected: Option<nat>, len: nat, nrItemsInWindow: nat)
    requires c.selected.Some? && c.window.0 < c.window.1 && nrItemsInWindow > 0
    ensures var r := Next(c, lastSelected, len, nrItemsInWindow);
            r == c || DescentLeft(r, len, nrItemsInWindow) < DescentLeft(c, len, nrItemsInWindow)
    ensures DescentLeft(c, len, nrItemsInWindow) == 0 ==> Next(c, lastSelected, len, nrItemsInWindow) == c
  {
  }

  lemma {:induction false} NextTimesStaysFixed(c: Cursor, lastSelected: Option<nat>, len: nat, nrItemsInWindow: nat, n: nat)
    requires c.window.0 < c.window.1 && nrItemsInWindow > 0
    requires Next(c, lastSelected, len, nrItemsInWindow) == c
    ensures NextTimes(c, lastSelected, len, nrItemsInWindow, n) == c
    decreases n
  {
    if n > 0 {
      NextTimesStaysFixed(c, lastSelected, len, nrItemsInWindow, n - 1);
    }
  }

  /** Pressing `next` DescentLeft times (or more) reaches a state that further presses do not change. */
  lemma {:induction false} NextReachesFixedPoint(c: Cursor, lastSelected: Option<nat>, len: nat, nrItemsInWindow: nat, n: nat)
    requires c.selected.Some? && c.window.0 < c.window.1 && nrItemsInWindow > 0
    requires n >= DescentLeft(c, len, nrItemsInWindow)
    ensures var f := NextTimes(c, lastSelected, len, nrItemsInWindow, n);
            Next(f, lastSelected, len, nrItemsInWindow) == f
    decreases n
  {
    NextDescends(c, lastSelected, len, nrItemsInWindow);
    var r := Next(c, lastSelected, len, nrItemsInWindow);
    if r == c {
      NextTimesStaysFixed(c, lastSelected, len, nrItemsInWindow, n);
    } else {
      NextReachesFixedPoint(r, lastSelected, len, nrItemsInWindow, n - 1);
    }
  }

  /** How many items a render of window `w` shows: the length of `Window(items, w)`. */
  function RenderedCount(w: Range, len: nat): (r: nat)
    requires InItems(w, len)
    ensures r <= Width(w) && w.0 + r <= len
    ensures r == Width(w) || w.1 > len
  {
    Min(w.1, len) - w.0
  }

  /**
   * When `nr_items_in_window` is what the last render counted, `next` keeps it
   * so: the window moves only while a full page of items remains.
   */
  lemma {:induction false} NextTimesKeepsRenderedCount(c: Cursor, lastSelected: Option<nat>, len: nat, n: nat)
    requires InItems(c.window, len) && c.window.0 < c.window.1 && RenderedCount(c.window, len) > 0
    ensures var r := NextTimes(c, lastSelected, len, RenderedCount(c.window, len), n);
            InItems(r.window, len) && RenderedCount(r.window, len) == RenderedCount(c.window, len)
    decreases n
  {
    if n > 0 {
      var nr := RenderedCount(c.window, len);
      var r := Next(c, lastSelected, len, nr);
      assert RenderedCount(r.window, len) == nr;
      NextTimesKeepsRenderedCount(r, lastSelected, len, n - 1);
    }
  }

  /**
   * Pressing `next` repeatedly, with each render recounting the window,
   * ends with the very last item selected and the window at the end of the
   * items; from then on `next` changes nothing.
   */
  lemma {:induction false} NextReachesLastItem(c: Cursor, lastSelected: Option<nat>, len: nat, n: nat)
    requires c.selected.Some? && InItems(c.window, len) && c.window.0 < c.window.1
    requires RenderedCount(c.window, len) > 0
    requires n >= DescentLeft(c, len, RenderedCount(c.window, len))
    ensures var nr := RenderedCount(c.window, len);
            var f := NextTimes(c, lastSelected, len, nr, n);
            && Next(f, lastSelected, len, nr) == f
            && f.selected.Some? && f.window.1 >= len && f.window.0 + f.selected.value == len - 1
  {
    var nr := RenderedCount(c.window, len);
    var f := NextTimes(c, lastSelected, len, nr, n);
    NextReachesFixedPoint(c, lastSelected, len, nr, n);
    NextTimesKeepsRenderedCount(c, lastSelected, len, n);
    NextFixedPoints(f, lastSelected, len, nr);
  }

  /** `previous` pressed `n` times. */
  function PreviousTimes(c: Cursor, lastSelected: Option<nat>, n: nat): (r: Cursor)
    requires c.window.0 <= c.window.1
    ensures r.window.0 <= r.window.1 && Width(r.window) == Width(c.window)
    ensures c.selected.Some? || n > 0 ==> r.selected.Some?
    decreases n
  {
    if n == 0 then c else PreviousTimes(Previous(c, lastSelected), lastSelected, n - 1)
  }

  /**
   * Pressing `previous` at least `window.0 + row` times, from any selected
   * row, ends with the first item selected in a window of the same width at
   * the top.
   */
  lemma {:induction false} PreviousReachesTop(c: Cursor, lastSelected: Option<nat>, n: nat)
    requires c.selected.Some? && c.window.0 <= c.window.1
    requires n >= c.window.0 + c.selected.value
    ensures PreviousTimes(c, lastSelected, n) == Cursor((0, Width(c.window)), Some(0))
    decreases n
  {
    if n > 0 {
      PreviousReachesTop(Previous(c, lastSelected), lastSelected, n - 1);
    }
  }

  // ---------------------------------------------------------------------
  // Paging and jumping to the ends
  // ---------------------------------------------------------------------

  /** `scroll_to_top`: one page from the first item. */
  function ScrollToTop(pageLen: nat): (r: Range)
    ensures r.0 == 0 && r.0 <= r.1 && Width(r) == pageLen
  {
    (0, pageLen)
  }

  /**
   * `scroll_to_bottom`: one page that ends at the last item, or at one page
   * when there are fewer items than that.
   */
  function ScrollToBottom(len: nat, pageLen: nat): (r: Range)
    ensures r.0 <= r.1 && Width(r) == pageLen
    ensures r.1 == Max(len, pageLen)
    ensures InItems(r, len)
  {
    var start := SaturatingSub(len, pageLen);
    (start, start + pageLen)
  }

  /** `page_down`: a full page further while one fits, else pinned to the bottom. */
  function PageDown(w: Range, len: nat, pageLen: nat): (r: Range)
    ensures w.1 + pageLen <= len ==> r == (w.0 + pageLen, w.1 + pageLen)
    ensures w.1 + pageLen > len ==> r == ScrollToBottom(len, pageLen)
    ensures InItems(w, len) ==> InItems(r, len)
    ensures w.0 <= w.1 <= w.0 + pageLen ==> r.0 <= r.1 <= r.0 + pageLen
  {
    if w.1 + pageLen <= len then (w.0 + pageLen, w.1 + pageLen)
    else
      var start := SaturatingSub(len, pageLen);
      (start, start + pageLen)
  }

  /** `page_up` subtracts a page from `window.1` too, which must not underflow. */
  predicate CanPageUp(w: Range, pageLen: nat) {
    w.0 >= pageLen ==> w.1 >= pageLen
  }

  /** `page_up`: a full page back while one fits, else pinned to the top. */
  function PageUp(w: Range, pageLen: nat): (r: Range)
    requires CanPageUp(w, pageLen)
    ensures w.0 >= pageLen ==> r == (w.0 - pageLen, w.1 - pageLen)
    ensures w.0 < pageLen ==> r == ScrollToTop(pageLen)
    ensures r.0 <= w.0
    ensures w.0 <= w.1 ==> r.0 <= r.1
    ensures w.0 <= w.1 <= w.0 + pageLen ==> r.1 <= r.0 + pageLen
  {
    if w.0 >= pageLen then (w.0 - pageLen, w.1 - pageLen) else (0, pageLen)
  }

  /** Where a whole page fits, `page_down` and `page_up` undo each other. */
  lemma PagingIsReversible(w: Range, len: nat, pageLen: nat)
    requires w.0 <= w.1
    ensures w.1 + pageLen <= len ==> PageUp(PageDown(w, len, pageLen), pageLen) == w
    ensures w.0 >= pageLen && w.1 <= len ==> PageDown(PageUp(w, pageLen), len, pageLen) == w
  {
  }

  /** With 95 items and pages of 10, `page_down` from (80, 90) shows the last ten items. */
  lemma PageDownNearEnd()
    ensures PageDown((80, 90), 95, 10) == (85, 95)
  {
  }

  /** With 100 items and pages of 10, top then bottom gives (0, 10) then (90, 100). */
  lemma TopThenBottom()
    ensures ScrollToTop(10) == (0, 10)
    ensures ScrollToBottom(100, 10) == (90, 100)
  {
  }

  /**
   * With fewer items than a page, jumping to the top leaves the window's
   * end past the last item; only the slice taken by `Window` is clamped.
   */
  lemma ShortListWindowEndsPastItems(items: seq<int>)
    requires |items| == 3
    ensures ScrollToTop(10).1 > |items|
    ensures Window(items, ScrollToTop(10)) == items
  {
  }

  // ---------------------------------------------------------------------
  // Horizontal scrolling
  // ---------------------------------------------------------------------

  /** The right-most offset: `max_width.saturating_sub(inner_width)`. */
  function HorizontalLimit(maxWidth: nat, innerWidth: nat): nat {
    SaturatingSub(maxWidth, innerWidth)
  }

  /** `scroll_left` */
  function ScrollLeft(offset: nat): (r: nat)
    ensures offset > 0 ==> r == offset - 1
    ensures offset == 0 ==> r == 0
  {
    SaturatingSub(offset, 1)
  }

  /** `page_left` */
  function PageLeft(offset: nat, innerWidth: nat): (r: nat)
    ensures r <= offset
    ensures offset >= innerWidth ==> r == offset - innerWidth
    ensures offset < innerWidth ==> r == 0
  {
    SaturatingSub(offset, innerWidth)
  }

  /** `scroll_right`: one column further, never past the right-most offset. */
  function ScrollRight(offset: nat, maxWidth: nat, innerWidth: nat): (r: nat)
    ensures r <= HorizontalLimit(maxWidth, innerWidth)
    ensures offset < HorizontalLimit(maxWidth, innerWidth) ==> r == offset + 1
    ensures offset >= HorizontalLimit(maxWidth, innerWidth) ==> r == HorizontalLimit(maxWidth, innerWidth)
  {
    Min(offset + 1, HorizontalLimit(maxWidth, innerWidth))
  }

  /** `page_right`: one inner width further, never past the right-most offset. */
  function PageRight(offset: nat, maxWidth: nat, innerWidth: nat): (r: nat)
    ensures r <= HorizontalLimit(maxWidth, innerWidth)
    ensures offset + innerWidth <= HorizontalLimit(maxWidth, innerWidth) ==> r == offset + innerWidth
    ensures offset + innerWidth > HorizontalLimit(maxWidth, innerWidth) ==> r == HorizontalLimit(maxWidth, innerWidth)
  {
    Min(offset + innerWidth, HorizontalLimit(maxWidth, innerWidth))
  }

  function ScrollLeftTimes(offset: nat, n: nat): nat
    decreases n
  {
    if n == 0 then offset else ScrollLeftTimes(ScrollLeft(offset), n - 1)
  }

  function ScrollRightTimes(offset: nat, maxWidth: nat, innerWidth: nat, n: nat): nat
    decreases n
  {
    if n == 0 then offset else ScrollRightTimes(ScrollRight(offset, maxWidth, innerWidth), maxWidth, innerWidth, n - 1)
  }

  /** `scroll_left` pressed `n` times moves `n` columns left, stopping at column 0. */
  lemma {:induction false} ScrollLeftTimesSaturates(offset: nat, n: nat)
    ensures ScrollLeftTimes(offset, n) == SaturatingSub(offset, n)
    decreases n
  {
    if n > 0 {
      ScrollLeftTimesSaturates(ScrollLeft(offset), n - 1);
    }
  }

  /**
   * `scroll_right` pressed `n > 0` times moves `n` columns right, stopping at
   * the right-most offset (and snapping back to it from a stale offset past it).
   */
  lemma {:induction false} ScrollRightTimesSaturates(offset: nat, maxWidth: nat, innerWidth: nat, n: nat)
    requires n > 0
    ensures ScrollRightTimes(offset, maxWidth, innerWidth, n) == Min(offset + n, HorizontalLimit(maxWidth, innerWidth))
    decreases n
  {
    if n > 1 {
      ScrollRightTimesSaturates(ScrollRight(offset, maxWidth, innerWidth), maxWidth, innerWidth, n - 1);
    }
  }

  /** Pressing `scroll_right` `max_width` times or more ends at the right-most offset, which is a fixed point. */
  lemma ScrollRightReachesLimit(offset: nat, maxWidth: nat, innerWidth: nat, n: nat)
    requires n > 0 && n >= maxWidth
    ensures ScrollRightTimes(offset, maxWidth, innerWidth, n) == HorizontalLimit(maxWidth, innerWidth)
    ensures ScrollRight(HorizontalLimit(maxWidth, innerWidth), maxWidth, innerWidth) == HorizontalLimit(maxWidth, innerWidth)
  {
    ScrollRightTimesSaturates(offset, maxWidth, innerWidth, n);
  }

  /** Paging is scrolling by one column `inner_width` times. */
  lemma PagingIsRepeatedScrolling(offset: nat, maxWidth: nat, innerWidth: nat)
    ensures PageLeft(offset, innerWidth) == ScrollLeftTimes(offset, innerWidth)
    ensures innerWidth > 0 ==> PageRight(offset, maxWidth, innerWidth) == ScrollRightTimes(offset, maxWidth, innerWidth, innerWidth)
  {
    ScrollLeftTimesSaturates(offset, innerWidth);
    if innerWidth > 0 {
      ScrollRightTimesSaturates(offset, maxWidth, innerWidth, innerWidth);
    }
  }

  // ---------------------------------------------------------------------
  // Render bookkeeping
  // ---------------------------------------------------------------------

  /** `EventList::window`: the items the window shows, clamped to the end of `items`. */
  function Window<E>(items: seq<E>, w: Range): (r: seq<E>)
    requires w.0 <= Min(w.1, |items|)
    ensures |r| == Min(w.1, |items|) - w.0
    ensures |r| <= w.1 - w.0 && |r| <= |items|
    ensures forall k :: 0 <= k < |r| ==> r[k] == items[w.0 + k]
  {
    items[w.0..Min(w.1, |items|)]
  }

  /**
   * The widest of `base` and the widths of `lines`: what a render leaves in
   * `max_width`, with `base` the area's width.
   */
  function MaxLineWidth<E>(base: nat, lines: seq<E>, lineWidth: E -> nat): (r: nat)
    ensures base <= r
    ensures forall k :: 0 <= k < |lines| ==> lineWidth(lines[k]) <= r
    ensures r == base || exists k :: 0 <= k < |lines| && r == lineWidth(lines[k])
    decreases |lines|
  {
    if lines == [] then base
    else Max(MaxLineWidth(base, lines[..|lines| - 1], lineWidth), lineWidth(lines[|lines| - 1]))
  }

  /**
   * After a render of an area `areaWidth` wide, the right-most offset shows the
   * end of the widest line, and every shown line ends within that reach.
   */
  lemma RenderedLinesReachable<E>(areaWidth: nat, lines: seq<E>, lineWidth: E -> nat)
    requires areaWidth >= 1
    ensures var maxWidth := MaxLineWidth(areaWidth, lines, lineWidth);
            && HorizontalLimit(maxWidth, areaWidth - 1) >= 1
            && HorizontalLimit(maxWidth, areaWidth - 1) + (areaWidth - 1) == maxWidth
            && forall k :: 0 <= k < |lines| ==>
                 lineWidth(lines[k]) <= HorizontalLimit(maxWidth, areaWidth - 1) + (areaWidth - 1)
  {
  }
}
