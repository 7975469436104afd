/**
 * The `EventList` struct of src/tui/event_list.rs as a class whose methods
 * update its fields in place. Each navigation method is proved against the
 * function of the same name in module Viewport; the render pass keeps only
 * its bookkeeping (inner width, number of shown items, widest line).
 */
module EventLists {
  import opened Wrappers
  import Viewport

  type uint16 = x: int | 0 <= x < 0x1_0000

  /**
   * ratatui's `ListState`: the selected row and the list's own scroll offset.
   * The list widget itself is not part of this model.
   */
  datatype ListState = ListState(selected: Option<nat>, offset: nat)

  /** `ListState::select`: clearing the selection also resets the offset. */
  function Select(s: ListState, index: Option<nat>): (r: ListState)
    ensures r.selected == index
    ensures r.offset == if index.None? then 0 else s.offset
  {
    ListState(index, if index.None? then 0 else s.offset)
  }

  /** The event list, generic in the type `E` of its events. */
  class EventList<E> {
    var state: ListState
    var items: seq<E>
    /** Current window of the event list, `[start, end)`. */
    var window: Viewport.Range
    /** How many items the last render showed. */
    var nrItemsInWindow: nat
    var lastSelected: Option<nat>
    var horizontalOffset: nat
    /** Width usable by the list items, not counting the selection indicator. */
    var innerWidth: uint16
    var maxWidth: nat
    var maxWindowLen: nat
    var follow: bool

    /** The window starts inside the items and does not run backwards. */
    ghost predicate Valid()
      reads this
    {
      Viewport.InItems(window, |items|)
    }

    /** The window with the selected row. */
    function Cursor(): Viewport.Cursor
      reads this
    {
      Viewport.Cursor(window, state.selected)
    }

    /** `EventList::new`; the baseline it stores only serves rendering and is left out. */
    constructor (follow: bool)
      ensures Valid()
      ensures state == ListState(None, 0) && items == [] && window == (0, 0)
      ensures nrItemsInWindow == 0 && lastSelected == None && horizontalOffset == 0
      ensures innerWidth == 0 && maxWidth == 0 && maxWindowLen == 0 && this.follow == follow
    {
      state := ListState(None, 0);
      items := [];
      lastSelected := None;
      window := (0, 0);
      nrItemsInWindow := 0;
      horizontalOffset := 0;
      innerWidth := 0;
      maxWidth := 0;
      maxWindowLen := 0;
      this.follow := follow;
    }

    method ToggleFollow()
      modifies this`follow
      ensures follow == !old(follow)
    {
      follow := !follow;
    }

    method StopFollow()
      modifies this`follow
      ensures !follow
    {
      follow := false;
    }

    /** `next_window`: slide down by one item if any remain below; says whether it did. */
    method NextWindow() returns (slid: bool)
      modifies this`window
      ensures (window, slid) == Viewport.NextWindow(old(window), |items|)
      ensures old(Valid()) ==> Valid()
    {
      if window.1 < |items| {
        window := (window.0 + 1, window.1 + 1);
        slid := true;
      } else {
        slid := false;
      }
    }

    /** `previous_window`: slide up by one item if any remain above; says whether it did. */
    method PreviousWindow() returns (slid: bool)
      requires Viewport.CanSlideUp(window)
      modifies this`window
      ensures (window, slid) == Viewport.PreviousWindow(old(window))
      ensures old(Valid()) ==> Valid()
    {
      if window.0 > 0 {
        window := (window.0 - 1, window.1 - 1);
        slid := true;
      } else {
        slid := false;
      }
    }

    method Next()
      requires Viewport.CanStepDown(Cursor(), nrItemsInWindow)
      modifies this`window, this`state
      ensures Cursor() == Viewport.Next(old(Cursor()), lastSelected, |items|, nrItemsInWindow)
      ensures state.offset == old(state.offset)
      ensures old(Valid()) ==> Valid()
    {
      var i: nat;
      match state.selected {
        case Some(s) =>
          if s >= window.1 - window.0 - 1 {
            var slid := NextWindow();
            i := s;
          } else {
            i := s + 1;
          }
          i := Viewport.Min(i, nrItemsInWindow - 1);
        case None =>
          i := lastSelected.UnwrapOr(0);
      }
      state := Select(state, Some(i));
    }

    method Previous()
      requires Viewport.CanStepUp(Cursor())
      modifies this`window, this`state
      ensures Cursor() == Viewport.Previous(old(Cursor()), lastSelected)
      ensures state.offset == old(state.offset)
      ensures old(Valid()) ==> Valid()
    {
      var i: nat;
      match state.selected {
        case Some(s) =>
          if s == 0 {
            var slid := PreviousWindow();
            i := s;
          } else {
            i := s - 1;
          }
        case None =>
          i := lastSelected.UnwrapOr(0);
      }
      state := Select(state, Some(i));
    }

    /** `unselect`: remember the selection and clear it, keeping the list's offset. */
    method Unselect()
      modifies this`state, this`lastSelected
      ensures (Viewport.Cursor(window, state.selected), lastSelected) == Viewport.Unselect(old(Cursor()))
      ensures state.offset == old(state.offset)
    {
      var offset := state.offset;
      lastSelected := state.selected;
      state := Select(state, None);
      state := state.(offset := offset);
    }

    method PageDown()
      modifies this`window
      ensures window == Viewport.PageDown(old(window), |items|, maxWindowLen)
      ensures old(Valid()) ==> Valid()
    {
      if window.1 + maxWindowLen <= |items| {
        window := (window.0 + maxWindowLen, window.1 + maxWindowLen);
      } else {
        var start := Viewport.SaturatingSub(|items|, maxWindowLen);
        window := (start, start + maxWindowLen);
      }
    }

    method PageUp()
      requires Viewport.CanPageUp(window, maxWindowLen)
      modifies this`window
      ensures window == Viewport.PageUp(old(window), maxWindowLen)
      ensures old(Valid()) ==> Valid()
    {
      if window.0 >= maxWindowLen {
        window := (window.0 - maxWindowLen, window.1 - maxWindowLen);
      } else {
        window := (0, maxWindowLen);
      }
    }

    method PageLeft()
      modifies this`horizontalOffset
      ensures horizontalOffset == Viewport.PageLeft(old(horizontalOffset), innerWidth)
    {
      horizontalOffset := Viewport.SaturatingSub(horizontalOffset, innerWidth);
    }

    method PageRight()
      modifies this`horizontalOffset
      ensures horizontalOffset == Viewport.PageRight(old(horizontalOffset), maxWidth, innerWidth)
    {
      horizontalOffset := Viewport.Min(horizontalOffset + innerWidth, Viewport.SaturatingSub(maxWidth, innerWidth));
    }

    method ScrollLeft()
      modifies this`horizontalOffset
      ensures horizontalOffset == Viewport.ScrollLeft(old(horizontalOffset))
    {
      horizontalOffset := Viewport.SaturatingSub(horizontalOffset, 1);
    }

    method ScrollRight()
      modifies this`horizontalOffset
      ensures horizontalOffset == Viewport.ScrollRight(old(horizontalOffset), maxWidth, innerWidth)
    {
      horizontalOffset := Viewport.Min(horizontalOffset + 1, Viewport.SaturatingSub(maxWidth, innerWidth));
    }

    method ScrollToTop()
      modifies this`window
      ensures window == Viewport.ScrollToTop(maxWindowLen)
      ensures Valid()
    {
      window := (0, maxWindowLen);
    }

    method ScrollToBottom()
      modifies this`window
      ensures window == Viewport.ScrollToBottom(|items|, maxWindowLen)
      ensures Valid()
    {
      var start := Viewport.SaturatingSub(|items|, maxWindowLen);
      window := (start, start + maxWindowLen);
    }

    method ScrollToStart()
      modifies this`horizontalOffset
      ensures horizontalOffset == 0
    {
      horizontalOffset := 0;
    }

    method ScrollToEnd()
      modifies this`horizontalOffset
      ensures horizontalOffset == Viewport.HorizontalLimit(maxWidth, innerWidth)
    {
      horizontalOffset := Viewport.SaturatingSub(maxWidth, innerWidth);
    }

    /**
     * The bookkeeping of a render into an area `areaWidth` columns wide;
     * `lineWidth` gives the width of an event's rendered line.
     */
    method Render(areaWidth: uint16, lineWidth: E -> nat)
      requires areaWidth >= 1
      requires window.0 <= Viewport.Min(window.1, |items|)
      modifies this`innerWidth, this`nrItemsInWindow, this`maxWidth
      ensures innerWidth == areaWidth - 1
      ensures nrItemsInWindow == |Viewport.Window(items, window)|
      ensures maxWidth == Viewport.MaxLineWidth(areaWidth, Viewport.Window(items, window), lineWidth)
    {
      innerWidth := areaWidth - 1;
      var maxLen: nat := areaWidth;
      var shown := Viewport.Window(items, window);
      nrItemsInWindow := |shown|;
      var k := 0;
      while k < |shown|
        invariant 0 <= k <= |shown|
        invariant maxLen == Viewport.MaxLineWidth(areaWidth, shown[..k], lineWidth)
      {
        assert shown[..k + 1][..k] == shown[..k];
        maxLen := Viewport.Max(maxLen, lineWidth(shown[k]));
        k := k + 1;
      }
      assert shown[..k] == shown;
      maxWidth := maxLen;
    }
  }
}
