# tracexec: event list navigation and process state store, in Dafny

This project models two sequential, state-keeping pieces of tracexec, a tool
that traces process execution and shows the resulting events in a terminal UI:

- **The event list** (`src/tui/event_list.rs`). It keeps a half-open window
  `[start, end)` over an append-only list of events. It also keeps the selected
  row relative to that window, the row that `unselect` remembered, a horizontal
  offset over the widest rendered line and a follow flag. Every navigation
  method slides, pages or jumps the window, or scrolls the offset, with
  saturating or clamping `usize` arithmetic.
- **The process state store** (`src/state.rs`). It maps every pid to the
  generations of processes seen under it, oldest first. `insert` appends a
  generation and `get_current_mut` hands out the newest one, so a reused pid
  never overwrites an older process's record.

Files:

- `wrappers.dfy`: Rust's `Option` and `Result`.
- `viewport.dfy` (module `Viewport`): the pure meaning of every event-list
  operation as a function of the old window, selection and offset. The lemmas
  state what navigation promises: sliding and paging are reversible, repeated
  `next` reaches the last item and stays there, repeated `previous` reaches the
  top, horizontal scrolling saturates, and `unselect` restores the old row.
- `event_list.dfy` (module `EventLists`): the `EventList` class. Its fields
  are the struct's fields and its methods update them in place. Each
  navigation method's `modifies` clause names exactly the fields the Rust
  method writes; `Render` leaves out the list state that ratatui's draw call
  writes (see "Left out"). Its `ensures` ties the new state to the `Viewport` function of the old state, and
  says that the class invariant `Valid()` is kept. `Valid()` means the window
  does not run backwards and starts inside the items.
- `state.dfy` (module `State`): `ProcessState`, `ProcessStatus`, `ExecData`,
  `ProcessState::new`, and pure functions giving the meaning of the store's map.
  It also holds the `ProcessStateStore` class, whose methods are proved against
  those functions.

`usize` is modelled as `nat`. The places where the Rust code would underflow
become preconditions:

- `window.1 - window.0 - 1` and `nr_items_in_window - 1` in `next`:
  `Viewport.CanStepDown`.
- `window.1 -= 1` in `previous_window`: `Viewport.CanSlideUp`.
- `window.1 -= max_window_len` in `page_up`: `Viewport.CanPageUp`.
- The slice in `EventList::window`: the requires of `Viewport.Window`.
- `area.width - 1` in `render`: the requires of `Render`.

`Valid()` implies all the window guards (`Viewport.InItemsGuards`) except the
two in `next`, which depend on the selection and on the last render. The guard of
`render` is about its `area` parameter and is not implied by any invariant.

The guard of `next` is not met by every reachable state. A fresh list has the
window (0, 0); a first `next` selects row 0, and a second `next` then computes
`0 - 0 - 1` (`Viewport.SecondNextOnFreshListUnderflows`). A debug build panics
there and a release build wraps. Whether the application always resizes the
window before navigation happens is decided by code outside the modelled files.

Some properties one might expect do not hold of the code, and the model
follows the code:

- The window's end may lie past the last item. `page_down`, `page_up`,
  `scroll_to_top` and `scroll_to_bottom` produce such a window when there are
  fewer items than a page (`Viewport.ShortListWindowEndsPastItems`). Only the
  slice is clamped.
- `max_width` is overwritten by every render, so it can shrink.
- Nothing enforces "exec data present implies not pre-exec".

## Model

| member | source | states |
|---|---|---|
| Viewport.NextWindow | src/tui/event_list.rs:73-81 | returns true exactly when `window.1` is below the item count; then both ends move up by one, otherwise the window is unchanged; width and `InItems` are kept |
| Viewport.PreviousWindow | src/tui/event_list.rs:83-91 | returns true exactly when `window.0 > 0`; then both ends move down by one, otherwise unchanged; width kept and the start never grows; requires that `window.1` cannot underflow |
| Viewport.SlidingIsReversible | src/tui/event_list.rs:73-91 | sliding down then up (or up then down, with the end inside the items) gives back the original window |
| Viewport.Next | src/tui/event_list.rs:93-106 | with no selection, selects the remembered row (or 0) and keeps the window; otherwise the row index grows by at most one and stays below `nr_items_in_window`; the window slides, by one, only from the last row and only while items remain below; width and `InItems` kept |
| Viewport.Previous | src/tui/event_list.rs:108-121 | with no selection, selects the remembered row (or 0); from row `i > 0` selects `i - 1` in the same window; from row 0 slides the window up (if possible) and stays at 0; width kept |
| Viewport.Unselect | src/tui/event_list.rs:123-128 | clears the selection, keeps the window and remembers the old selection |
| Viewport.UnselectThenMoveRestores | src/tui/event_list.rs:93-128 | `unselect` then `next` or `previous` restores exactly the previously selected row (row 0 if none) without moving the window |
| Viewport.NextFixedPoints | src/tui/event_list.rs:93-106 | `next` changes nothing if and only if the last row, inside the rows the last render counted, is selected in a window reaching the end of the items, or the last rendered row is selected in a window showing fewer rows than it spans |
| Viewport.NextTimes | src/tui/event_list.rs:93-106 | repeated `next` keeps the window's width, keeps `InItems`, and leaves a row selected |
| Viewport.NextDescends | src/tui/event_list.rs:93-106 | each `next` that changes something lowers a bound on the remaining presses; at bound 0 `next` is a no-op |
| Viewport.NextReachesFixedPoint | src/tui/event_list.rs:93-106 | after enough presses of `next`, a further press changes nothing |
| Viewport.RenderedCount | src/tui/event_list.rs:194-208 | the number of items a render of the window shows is at most its width, fits in the items, and equals the width unless the window's end lies past the items |
| Viewport.NextTimesKeepsRenderedCount | src/tui/event_list.rs:93-106 | when `nr_items_in_window` equals the last render's count, repeated `next` keeps it equal (the window moves only while a full page remains) |
| Viewport.NextReachesLastItem | src/tui/event_list.rs:93-106 | repeated `next`, with renders recounting the window, ends with the very last item selected, the window's end at or past the end of the items, and `next` then a no-op |
| Viewport.PreviousTimes | src/tui/event_list.rs:108-121 | repeated `previous` keeps the window's width and leaves a row selected |
| Viewport.PreviousReachesTop | src/tui/event_list.rs:108-121 | `window.0 + row` or more presses of `previous` end at row 0 of the window `(0, width)` |
| Viewport.ScrollToTop | src/tui/event_list.rs:175-178 | the window starts at 0 and is exactly one page wide |
| Viewport.ScrollToBottom | src/tui/event_list.rs:180-183 | the window is exactly one page wide, ends at `max(item count, page length)` and starts inside the items |
| Viewport.PageDown | src/tui/event_list.rs:130-140 | shifts both ends by a page when a whole page fits below, otherwise equals `scroll_to_bottom`; keeps `InItems` and "at most one page wide" |
| Viewport.PageUp | src/tui/event_list.rs:142-153 | shifts both ends back by a page when `window.0` allows it, otherwise equals `scroll_to_top`; the start never grows; keeps "at most one page wide"; requires that `window.1` cannot underflow |
| Viewport.PagingIsReversible | src/tui/event_list.rs:130-153 | where a whole page fits, `page_up` undoes `page_down` and `page_down` undoes `page_up` |
| Viewport.PageDownNearEnd | src/tui/event_list.rs:130-140 | 95 items, pages of 10: `page_down` from (80, 90) gives (85, 95) |
| Viewport.TopThenBottom | src/tui/event_list.rs:175-183 | 100 items, pages of 10: top gives (0, 10), bottom gives (90, 100) |
| Viewport.ShortListWindowEndsPastItems | src/tui/event_list.rs:175-196 | with 3 items and pages of 10, `scroll_to_top` puts the window's end past the items, and the slice is still all 3 items |
| Viewport.ScrollLeft | src/tui/event_list.rs:166-168 | one column left, stopping at 0 |
| Viewport.PageLeft | src/tui/event_list.rs:155-159 | `inner_width` columns left, stopping at 0; never moves right |
| Viewport.ScrollRight | src/tui/event_list.rs:170-173 | one column right while below `max_width ⊖ inner_width`, else exactly that limit; never exceeds it |
| Viewport.PageRight | src/tui/event_list.rs:161-164 | `inner_width` columns right while that stays within `max_width ⊖ inner_width`, else exactly that limit; never exceeds it |
| Viewport.ScrollLeftTimesSaturates | src/tui/event_list.rs:166-168 | `n` presses of `scroll_left` give `offset ⊖ n` |
| Viewport.ScrollRightTimesSaturates | src/tui/event_list.rs:170-173 | `n > 0` presses of `scroll_right` give `min(offset + n, limit)` |
| Viewport.ScrollRightReachesLimit | src/tui/event_list.rs:170-173 | `max_width` presses (at least one) of `scroll_right` reach the limit, where `scroll_right` is a fixed point |
| Viewport.PagingIsRepeatedScrolling | src/tui/event_list.rs:155-173 | `page_left` is `inner_width` presses of `scroll_left`; with `inner_width > 0`, `page_right` is `inner_width` presses of `scroll_right` |
| Viewport.InItemsGuards | src/tui/event_list.rs:83-153 | a window that does not run backwards and starts inside the items meets the underflow guards of `previous_window` and `page_up`, and the bound of the slice at line 195 |
| Viewport.SecondNextOnFreshListUnderflows | src/tui/event_list.rs:47-106 | from the fresh window (0, 0), a first `next` selects row 0 and a second `next` would underflow at line 96 |
| Viewport.Window | src/tui/event_list.rs:194-196 | the slice holds the items from `window.0` up to `min(window.1, item count)`, in order; it is no longer than the window's width or the item list; requires `window.0 <= min(window.1, item count)` |
| Viewport.MaxLineWidth | src/tui/event_list.rs:205-221 | the result is at least the area's width and at least every shown line's width, and equals one of them |
| Viewport.RenderedLinesReachable | src/tui/event_list.rs:189-221 | after a render, the right-most offset plus `inner_width` equals `max_width`, so `scroll_to_end` brings the end of every shown line into view |
| EventLists.EventList.constructor | src/tui/event_list.rs:47-61 | no items, window (0, 0), no selection, every counter 0, follow as given; `Valid()` |
| EventLists.EventList.ToggleFollow | src/tui/event_list.rs:63-65 | flips `follow` and changes nothing else |
| EventLists.EventList.StopFollow | src/tui/event_list.rs:67-69 | clears `follow` and changes nothing else |
| EventLists.EventList.NextWindow | src/tui/event_list.rs:73-81 | window and result as `Viewport.NextWindow`; changes only the window; keeps `Valid()` |
| EventLists.EventList.PreviousWindow | src/tui/event_list.rs:83-91 | window and result as `Viewport.PreviousWindow`; changes only the window; keeps `Valid()` |
| EventLists.EventList.Next | src/tui/event_list.rs:93-106 | window and selection as `Viewport.Next`; the list offset and everything else unchanged; keeps `Valid()` |
| EventLists.EventList.Previous | src/tui/event_list.rs:108-121 | window and selection as `Viewport.Previous`; the list offset and everything else unchanged; keeps `Valid()` |
| EventLists.EventList.Unselect | src/tui/event_list.rs:123-128 | selection cleared and remembered as `Viewport.Unselect`; the list offset survives the clearing; window untouched |
| EventLists.EventList.PageDown | src/tui/event_list.rs:130-140 | window as `Viewport.PageDown`; changes only the window; keeps `Valid()` |
| EventLists.EventList.PageUp | src/tui/event_list.rs:142-153 | window as `Viewport.PageUp`; changes only the window; keeps `Valid()` |
| EventLists.EventList.PageLeft | src/tui/event_list.rs:155-159 | offset as `Viewport.PageLeft`; changes only the offset |
| EventLists.EventList.PageRight | src/tui/event_list.rs:161-164 | offset as `Viewport.PageRight`; changes only the offset |
| EventLists.EventList.ScrollLeft | src/tui/event_list.rs:166-168 | offset as `Viewport.ScrollLeft`; changes only the offset |
| EventLists.EventList.ScrollRight | src/tui/event_list.rs:170-173 | offset as `Viewport.ScrollRight`; changes only the offset |
| EventLists.EventList.ScrollToTop | src/tui/event_list.rs:175-178 | window as `Viewport.ScrollToTop`; establishes `Valid()` |
| EventLists.EventList.ScrollToBottom | src/tui/event_list.rs:180-183 | window as `Viewport.ScrollToBottom`; establishes `Valid()` |
| EventLists.EventList.ScrollToStart | src/tui/event_list.rs:185-187 | offset 0; changes only the offset |
| EventLists.EventList.ScrollToEnd | src/tui/event_list.rs:189-191 | offset `max_width ⊖ inner_width`; changes only the offset |
| EventLists.EventList.Render | src/tui/event_list.rs:204-221 | `inner_width` is the area's width minus 1, `nr_items_in_window` the length of the window's slice, `max_width` the `MaxLineWidth` of the area's width and the shown lines; nothing else changes |
| State.NewProcessState | src/state.rs:54-64 | succeeds exactly when both reads succeed, then gives the pid and start time passed in, `Running`, `preexecve`, no exec data and the comm and argv read; the first failing read's error otherwise, the name's first |
| State.Inserted | src/state.rs:39-44 | the pid's history becomes the old one (empty if absent) plus the new state; every other pid's history is unchanged; the keys gain the pid; no history becomes empty |
| State.Current | src/state.rs:46-50 | the last element of the pid's history, and none exactly when that history is empty or absent (in a valid store, exactly when the pid was never inserted) |
| State.UpdatedCurrent | src/state.rs:46-50 | changing the current state touches that pid's last entry only: same keys, same history lengths, earlier generations and other pids unchanged, new current is `f` of the old one |
| State.PidReuse | src/state.rs:39-50 | inserting `a` and then `b` with the same pid makes `b` current, and `a` sits just before it in the history |
| State.ReplayHistories | src/state.rs:33-44 | from a new store, inserting states in order gives each pid exactly its states in observation order, and no history is empty |
| State.ReplayCurrent | src/state.rs:33-50 | after such inserts, the current state of a pid is none exactly when it was never inserted, and otherwise its latest inserted state |
| State.ProcessStateStore.constructor | src/state.rs:33-37 | the map is empty, so `Valid()` holds |
| State.ProcessStateStore.Insert | src/state.rs:39-44 | the map becomes `Inserted(old map, state)`; keeps `Valid()` |
| State.ProcessStateStore.GetCurrent | src/state.rs:46-50 | returns the last generation of the pid when its history is present and non-empty, else none; in a valid store none exactly when the pid is absent |
| State.ProcessStateStore.UpdateCurrent | src/state.rs:46-50 | reports whether a current state existed, and the map becomes `UpdatedCurrent(old map, pid, f)`; keeps `Valid()` |

## Left out

- `usize` overflow of the additions (`window.1 + 1`, `window.1 + max_window_len`, `horizontal_offset + inner_width`) is not modelled: `usize` is `nat` here, and only the subtractions that can underflow become preconditions.
- Drawing with ratatui in `render` is a foreign library call and is not modelled: `to_tui_line`, `substring`, the styles, `List` and `StatefulWidget::render`. A line is reduced to its width, given by the `lineWidth` parameter of `Render`. The `baseline` field, used only to draw lines, is left out, and events are an opaque type parameter.
- EventLists.EventList.Render: the model leaves `state` as it was, although the foreign draw call `StatefulWidget::render` at the end of `render` receives `&mut self.state` and ratatui's list widget rewrites the list offset there.
- ratatui's `ListState` is reduced to its selected row and its offset. `Select` follows ratatui's `ListState::select`, which resets the offset when the selection is cleared; ratatui is not part of this model.
- `read_comm` and `read_argv` in `ProcessState::new` are reads from the operating system. Their outcomes are parameters of `State.NewProcessState`.
- `get_current_mut` hands out a mutable reference. It is split into `GetCurrent`, which reads, and `UpdateCurrent`, which replaces the newest generation by a caller-given function of it. The handlers that apply exec and exit notifications through it are not part of this model.
- Follow mode's re-pinning of the window on append, the channel between tracer and UI, and the dispatch from key actions to navigation methods are not in the modelled files. Only the `follow` flag's two setters are modelled.
- Appending to `items` is done by code outside the modelled files. `items` is a public field, and `Valid()` stays true when it grows.
- Viewport.NextTimes: models presses of `next` with `nr_items_in_window` fixed between them. `NextTimesKeepsRenderedCount` shows this equals re-rendering between presses when the count was right to begin with.
- Properties the code does not keep are not proved: the window's end within the items, `max_width` never shrinking, the horizontal offset staying within `max_width ⊖ inner_width` (`render` rewrites both and leaves the offset alone), and exec data implying "not pre-exec".
- src/cli.rs (argument parsing, and a frame-rate parser that works on floating point) and src/action.rs (enum declarations only) are not part of this model.
