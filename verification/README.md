# Family schedule store and Gantt drag logic, in Dafny

This project models the core of the family home schedule app. The app is a
Tk program: each family member has a list of `(start_hour, end_hour)`
schedules and a chart colour, and the schedules are drawn as bars on a
24-hour Gantt chart whose bars can be dragged and resized.

The model covers:

- **`DataManager`** (`data_manager.dfy`): the store of members. It covers
  member add/delete, schedule add/clear/update/delete with their
  `(success, message)` answers, and the colour handling of `load_data`.
  A failing call leaves the store exactly as it was. Each `save_data` is
  counted.
- **`ColorManager`** (`color_manager.dfy`): the ten-colour palette. Colours
  are handed out round-robin, and after a load the cursor is reseeded to
  the first colour not in use. The repository holds two byte-identical
  copies of this class, and one module models both.
- **Python semantics** the core relies on:
  - tuple order and `list.sort` (`slot_order.dfy`);
  - `round` with ties to even (`py_round.dfy`);
  - `str.split('_')`, `'_'.join`, `str(int)` and `int(str)` (`bar_tag.dfy`).
- **The drag logic of the two Gantt canvases**, with a shared pixel/hour
  axis and the single `update_schedule` call a release may make
  (`chart_axis.dfy`):
  - `FamilyscheduleApp/gui/chart_canvas.py` (`family_chart.dfy`). It snaps
    each motion to whole hours, keeps a move's duration, and enforces a
    one-hour minimum on resizes.
  - `gui/chart_canvas.py` (`chart.dfy`). It moves bars by raw pixel deltas,
    finds the dragged schedule by decoding the bar's canvas tag, and
    repairs the committed hours at release.

Tk itself (canvas items, coordinates, tags, pointer events) appears only as
inputs: coordinates, tag lists and pointer positions. The outputs are the
new bar rectangle and the store call to make. The store's file is replaced
by a write counter and by the already-parsed entries `load_data` reads.

## Model

| member | source | states |
|---|---|---|
| ColorManager.PaletteDistinct | core/color_manager.py:7-10 | `CHART_COLORS` has ten entries and no two are equal |
| ColorManager.PaletteComplete | FamilyscheduleApp/core/color_manager.py:7-10 | every colour the model can hold is one of the `CHART_COLORS` entries |
| ColorManager.Name | FamilyscheduleApp/core/color_manager.py:8-9 | each colour's Tk string is a non-empty run of lower-case letters |
| ColorManager.NameRoundTrip | FamilyscheduleApp/core/color_manager.py:8-9 | the colour strings are pairwise distinct, and reading a colour's string back gives that colour |
| ColorManager.FromName | core/data_manager.py:38 | `color in CHART_COLORS`: the result is the palette colour with exactly that string, and `None` exactly when no palette colour has that string |
| ColorManager.NextColor | core/color_manager.py:25-27 | `get_next_color` returns the colour under the cursor; the cursor moves up by one, and after the last colour it goes back to 0 |
| ColorManager.NextColors | core/color_manager.py:25-27 | n consecutive calls return n colours, the first being the colour under the starting cursor |
| ColorManager.NextColorsCycle | FamilyscheduleApp/core/color_manager.py:25-27 | the k-th of n consecutive calls returns the palette entry k places (mod 10) after the starting cursor; afterwards the cursor has moved n places mod 10 |
| ColorManager.TenCallsInOrder | core/color_manager.py:17-27 | from a new allocator, the k-th of ten calls returns the k-th `CHART_COLORS` entry |
| ColorManager.TenCallsThenRepeat | core/color_manager.py:17-27 | from a new allocator, ten calls return the whole palette in order (ten distinct colours) and bring the cursor back to 0; the eleventh call repeats the first colour |
| ColorManager.FirstUnused | core/color_manager.py:37-39 | the scan stops at the first position at or after its start whose colour is unused; every colour it passes over is used |
| ColorManager.Reseed | core/color_manager.py:35-43 | `set_current_color_index_based_on_used_colors`: every colour before the new cursor is used; the colour under it is unused when any colour is unused; when all ten are used the cursor is 0 |
| ColorManager.ReseedIgnoresCursor | core/color_manager.py:35 | the reseeded allocator depends only on the colours in use: any two prior cursors give the same result, and reseeding twice equals reseeding once |
| ColorManager.ReseedSkipsOnlyUsed | FamilyscheduleApp/core/color_manager.py:35-43 | with only the third colour in use, the next colour handed out is the first one |
| SlotOrder.LeTotalOrder | core/data_manager.py:116 | Python's `<=` on `(start, end)` tuples is reflexive, antisymmetric, transitive and total |
| SlotOrder.Insert | core/data_manager.py:155 | inserting into a sorted list gives a sorted list holding one more copy of the new entry and nothing else new |
| SlotOrder.Sort | core/data_manager.py:116 | `list.sort()` yields a sorted permutation of the list (same multiset, same length) |
| SlotOrder.SortedUnique | core/data_manager.py:155 | two sorted lists with the same elements are equal, so the sorted permutation is the one Python's sort returns |
| SlotOrder.SortSortedIsIdentity | core/data_manager.py:116 | sorting an already sorted list leaves it unchanged |
| SlotOrder.RemoveAtKeepsSorted | core/data_manager.py:178 | deleting one position of a sorted list leaves it sorted |
| DataManager.Save | core/data_manager.py:61-77 | `save_data` writes the members and their colours as they are: nothing in the store changes except the write count, which goes up by one |
| DataManager.AddMember | core/data_manager.py:85-90 | a duplicate name fails and changes nothing (both directions). A new name gets an empty list and the allocator's next colour; the allocator advances, other members are untouched, and one save happens |
| DataManager.DeleteMember | core/data_manager.py:98-102 | an unknown name fails and changes nothing (both directions). A known name is removed, other members and the allocator are untouched, and one save happens |
| DataManager.AddSchedule | core/data_manager.py:112-118 | an unknown member fails and changes nothing (both directions). Otherwise the list becomes sorted and holds the old entries plus the new pair; colour, other members and allocator are kept; one save |
| DataManager.ClearMemberSchedules | core/data_manager.py:126-130 | an unknown member fails and changes nothing (both directions). Otherwise the member's list is empty, its colour is kept, nothing else changes, and one save happens |
| DataManager.Wrap | core/data_manager.py:147 | Python's `s[idx]` for `-len <= idx < len` reads position `idx`, or `len + idx` for a negative index |
| DataManager.FirstIndexOf | core/data_manager.py:152 | the position `list.remove` deletes: the first occurrence, or `None` exactly when the value is absent |
| DataManager.Locate | core/data_manager.py:147-152 | the position the index-then-value match removes. It is the index when that holds the entry (negative indices included). Otherwise it is the first occurrence; `Missing` exactly when the value is absent; `BadIndex` exactly when `idx < -len` raises `IndexError` |
| DataManager.RemoveAt | core/data_manager.py:148 | `del schedules[p]` leaves one entry fewer, with exactly one copy of `s[p]` removed |
| DataManager.UpdateSchedule | core/data_manager.py:141-161 | an unknown member, a missing entry or an index below `-len` fails and changes nothing. Success happens exactly when the member is known, the entry is present and the index is in range. Then one copy of the old entry is swapped for the new one, the list is sorted and keeps its length, nothing else changes, and one save happens |
| DataManager.DeleteSchedule | core/data_manager.py:171-187 | the same failure cases and the same success condition as update. The matched position is removed without re-sorting, a sorted list stays sorted, nothing else changes, and one save happens |
| DataManager.OperationsKeepListsSorted | core/data_manager.py:112-187 | if every member's list is sorted, it stays so after any of the six operations |
| DataManager.UpdateFailsLikeDelete | core/data_manager.py:141-187 | update and delete with the same member, entry and index fail in exactly the same cases, for the same reason |
| DataManager.UpdateIsDeleteThenAdd | core/data_manager.py:144-157 | a successful update leaves the same members as a delete followed by an add, with one save fewer |
| DataManager.DeleteMemberUndoesAdd | core/data_manager.py:85-102 | adding a new member and then deleting it gives back the original member map |
| DataManager.DeleteScheduleUndoesAdd | core/data_manager.py:112-183 | on a sorted list, deleting a just-added pair succeeds and restores the list exactly for any index Python can apply to the grown list, that is any `idx >= -(len + 1)`, stale or not. A more negative index raises `IndexError`: the delete fails with `IndexFault` and the store is unchanged |
| DataManager.UpdateExample | core/data_manager.py:141-157 | updating `(9, 17)` at index 0 to `(10, 18)` leaves `[(10, 18)]` and saves once |
| DataManager.StaleIndexFallsBackToValue | core/data_manager.py:147-159 | a stale index still succeeds through the value fallback; a pair not in the list fails and leaves the store untouched |
| DataManager.StoredColor | core/data_manager.py:36-38 | the stored colour is kept exactly when it is present and names a palette colour |
| DataManager.LoadStep | core/data_manager.py:34-44 | one pass of the load loop adds the entry's name with its stored schedules. A stored palette colour is kept and the allocator is untouched; otherwise the entry gets the colour under the cursor and the allocator advances. The colour given joins `used_colors` |
| DataManager.LoadPrefixCursor | core/data_manager.py:34-39 | during the load loop, the cursor has advanced once (mod 10) for each entry that needed a fresh colour |
| DataManager.LoadPrefixSets | core/data_manager.py:34-44 | after the loop, the members are exactly the entries' names and `used_colors` is exactly the set of colours they got |
| DataManager.LoadPrefixMember | core/data_manager.py:40-43 | each entry's record survives the rest of the loop unchanged: its schedules as stored, and its kept or freshly allocated colour |
| DataManager.LoadData | core/data_manager.py:22-57 | a missing or undecodable file gives an empty store with a new allocator. Otherwise every entry becomes a member with its stored schedules. A stored palette colour is kept; the other entries get palette colours in allocation order. The allocator is reseeded from the colours in use, and nothing is saved |
| PyRound.Round | FamilyscheduleApp/gui/chart_canvas.py:422-423 | `round(x)` is within one half of `x`, and on a tie it is even |
| PyRound.RoundUnique | gui/chart_canvas.py:323-324 | any integer closer than one half to `x`, or an even one exactly one half away, is `round(x)` |
| PyRound.RoundInt | gui/chart_canvas.py:323-324 | a whole-hour position rounds to itself |
| PyRound.RoundMonotone | FamilyscheduleApp/gui/chart_canvas.py:314 | rounding never reverses the order of two positions |
| PyRound.RoundExamples | FamilyscheduleApp/gui/chart_canvas.py:359 | `round(2.5) == 2`, `round(3.5) == 4`, `round(-0.5) == 0`, `round(8.6) == 9` |
| ChartAxis.PixelToHour | gui/chart_canvas.py:323-324 | the hour of pixel `x` is the hour whose position `chart_start_x + h * hour_width` is `x` |
| ChartAxis.HourToPixel | gui/chart_canvas.py:142-143 | hour 0 is drawn at the axis start, and for a non-zero hour width the drawn pixel reads back as the hour it was drawn for |
| ChartAxis.AxisInverse | FamilyscheduleApp/gui/chart_canvas.py:313-336 | for a non-zero hour width, the pixel-to-hour and hour-to-pixel conversions undo each other in both directions |
| ChartAxis.AxisMonotone | gui/chart_canvas.py:142-143 | for a positive hour width, pixel order and hour order agree (both directions) |
| ChartAxis.Release | FamilyscheduleApp/gui/chart_canvas.py:442-450 | with no call the store is untouched. With a call, at most one save happens, and if no save happens nothing changes; colours and member names are never changed |
| FamilyChart.ChartParams | FamilyscheduleApp/gui/chart_canvas.py:66-74 | the axis starts at the left margin and spans the width minus both margins; at zoom 1 it is 24 hour widths. For positive zoom the hour width is positive exactly for canvases wider than 100 px, and zero exactly at 100 px |
| FamilyChart.AxisSpansDay | FamilyscheduleApp/gui/chart_canvas.py:66-74 | hour 0 sits on the left margin and hour 24 lies `zoom` chart widths to its right, so at zoom 1 the day ends on the right margin; for positive zoom and a canvas other than 100 px that pixel reads back as hour 24 |
| FamilyChart.Snap | FamilyscheduleApp/gui/chart_canvas.py:314 | with a snap interval of one hour, the snapped hour is within half an hour of the pointer's hour, and on a tie it is the even hour |
| FamilyChart.MoveSpan | FamilyscheduleApp/gui/chart_canvas.py:316-332 | the moved range keeps the original duration and never starts before 0. It ends by 24 for durations up to a day, is unchanged when already in range, is pushed back to end at 24 when it would pass 24, and starts at 0 when the snap was negative |
| FamilyChart.ResizeLeftStart | FamilyscheduleApp/gui/chart_canvas.py:356-369 | the new start is never before 0 and at least one hour before the current end. It is the snapped start when that is in range, else exactly one hour before the end, or 0 |
| FamilyChart.ResizeRightEnd | FamilyscheduleApp/gui/chart_canvas.py:379-392 | the new end is never after 24 and at least one hour after the current start. It is the snapped end when that is in range, else exactly one hour after the start, or 24 |
| FamilyChart.Begin | FamilyscheduleApp/gui/chart_canvas.py:261-279 | an empty or unknown member, or an index outside the member's list, starts nothing. Otherwise the drag records the mode, the bar, the member, the index, the stored schedule at that index, and the pointer's offset from the bar's left edge |
| FamilyChart.Motion | FamilyscheduleApp/gui/chart_canvas.py:295-398 | with no drag nothing happens. A drag changes only the bar and keeps its y coordinates. A move puts the bar at the hours `MoveSpan` gives for the snapped hour of the pointer minus its press offset and the original duration. A left resize keeps the right edge and puts the left edge at `ResizeLeftStart` of the pointer's snapped hour and the right edge's hour; a right resize mirrors this with `ResizeRightEnd` |
| FamilyChart.MoveKeepsDuration | FamilyscheduleApp/gui/chart_canvas.py:308-336 | a move redraws the bar with the original schedule's duration in hours, never before hour 0, and inside the day when the duration is at most 24 |
| FamilyChart.ResizeLeftKeepsMinimum | FamilyscheduleApp/gui/chart_canvas.py:354-374 | a left resize never starts before hour 0 and leaves at least one hour before the right edge |
| FamilyChart.ResizeRightKeepsMinimum | FamilyscheduleApp/gui/chart_canvas.py:377-397 | a right resize never ends after hour 24 and leaves at least one hour after the left edge |
| FamilyChart.Commit | FamilyscheduleApp/gui/chart_canvas.py:417-431 | the committed start is the rounded start raised to 0. The committed end is the rounded end lowered to 24, replaced by start + 1 when it is not after the start. So the end is always after the start, and a start before 24 commits an end of at most 24 |
| FamilyChart.CommitKeepsValidHours | FamilyscheduleApp/gui/chart_canvas.py:422-431 | whole hours already within `0 <= a < b <= 24` commit to themselves |
| FamilyChart.CommitCanPassDayEnd | FamilyscheduleApp/gui/chart_canvas.py:426-431 | a range whose start rounds to 24 commits as `(24, 25)`, past the axis |
| FamilyChart.CommitExample | FamilyscheduleApp/gui/chart_canvas.py:422-431 | `(8.6, 17.2)` commits as `(9, 17)` |
| FamilyChart.EndDrag | FamilyscheduleApp/gui/chart_canvas.py:405-457 | the drag always ends. No call is made with no drag, or exactly when the committed pair equals the original. Otherwise one `update_schedule` call is made with the member, the original entry, its index and the committed pair |
| FamilyChart.ClickWithoutMotionIsNoOp | FamilyscheduleApp/gui/chart_canvas.py:261-457 | at zoom 1, pressing on the bar drawn for a stored schedule inside the day and releasing it without motion starts a drag and makes no store call |
| FamilyChart.DrawnBar | FamilyscheduleApp/gui/chart_canvas.py:126-131 | a drawn bar keeps its y coordinates; its left edge is the larger of its start hour's pixel and the axis start, and its right edge the smaller of its end hour's pixel and the axis end |
| FamilyChart.DrawnBarInsideDay | FamilyscheduleApp/gui/chart_canvas.py:126-131 | at zoom 1 on a canvas wider than its margins, a schedule inside the day is drawn at exactly its hours' pixels |
| FamilyChart.MoveThenCommit | FamilyscheduleApp/gui/chart_canvas.py:308-431 | a move of a schedule lasting 1 to 24 hours commits a range inside the day with the same duration |
| FamilyChart.ReleaseWritesAtMostOnce | FamilyscheduleApp/gui/chart_canvas.py:442-457 | a release ends the drag and saves at most once; with no call or no drag the store is untouched |
| Chart.ChartParams | gui/chart_canvas.py:61-71 | the hour width is at least 10 px and the axis is 24 hour widths long. Above the floor, 24 hour widths fill the width minus both margins; below it, an hour is exactly 10 px |
| Chart.AxisSpansDay | gui/chart_canvas.py:61-71 | hour 0 is drawn at the axis start and hour 24 at `chart_end_x`, and `chart_end_x` reads back as hour 24 |
| Chart.HitTest | gui/chart_canvas.py:203-211 | resize-left exactly when the pointer is within the handle width of the left edge. Resize-right exactly when it is not, but is within the handle width of the right edge. Move exactly when it is near neither edge |
| Chart.IsBarTag | gui/chart_canvas.py:185 | a tag is a bar tag exactly when it is `schedule_bar_` followed by the rest of the tag |
| Chart.ItemTags | gui/chart_canvas.py:148-153 | the three tags of a drawn rectangle: its bar tag, its text tag (which is not a bar tag) and the member name; the bar tag found among them is the bar's own |
| Chart.FindBarTag | gui/chart_canvas.py:183-187 | the first `schedule_bar_` tag of the item, and `None` exactly when there is none |
| Chart.ContextTarget | gui/chart_canvas.py:374-387 | with the corrected decode: a context menu is offered only for an item with a bar tag, and for the schedule that tag decodes to |
| Chart.ContextTargetOfDrawnBar | gui/chart_canvas.py:380-387 | with the corrected decode, right-clicking a drawn bar names that bar's member, schedule and index, whatever the member's name |
| Chart.StartDrag | gui/chart_canvas.py:179-217 | with the corrected decode: with no bar tag nothing changes. An undecodable tag or a non-rectangle item cancels the drag. Otherwise the drag starts from the decoded member, schedule and index, with the item's rectangle, the hit-tested mode and the pointer position |
| Chart.Step | gui/chart_canvas.py:225-264 | the corrected motion step, one shift per event with the pointer recorded after it: a move shifts both edges by the pointer delta. A left resize keeps the right edge and sets the left edge to the shifted edge raised to the axis start, then lowered to one hour width before the right edge; a right resize mirrors this with the axis end. With no drag nothing happens |
| Chart.Steps | gui/chart_canvas.py:225-264 | a sequence of motion events keeps a drag's mode and original schedule, and does nothing without a drag |
| Chart.MoveFollowsPointer | gui/chart_canvas.py:226-264 | with the corrected step, over any sequence of motion events, a moved bar's left edge follows the total pointer travel since the press, and its width is unchanged |
| Chart.StepTwiceIsStepOnce | gui/chart_canvas.py:155-163 | the corrected step is idempotent: running it a second time for the same event, as the second bound tag does, changes nothing |
| Chart.MotionRunAsWritten | gui/chart_canvas.py:225-264 | one run of `drag_motion` as written: with no drag nothing happens; a drag changes only the bar and the pointer it remembers, and keeps its y coordinates. A move shifts the rectangle by twice the pointer delta (once by its item id, once by its text tag) and records the pointer. A resize sets the rectangle as the corrected step does but leaves the remembered pointer at its old value, because the label update raises first |
| Chart.StepAsWritten | gui/chart_canvas.py:152-163 | one motion event as written, which runs `drag_motion` once for each of the rectangle's two bound tags: a move lands where the corrected step would for a pointer twice as far from the remembered one, and records the pointer; a resize applies the corrected resize twice from the same remembered pointer, keeps the other edge and at least one hour width, and does not record the pointer |
| Chart.StepsAsWritten | gui/chart_canvas.py:225-264 | a sequence of motion events as written keeps a drag's mode and original schedule, never records the pointer during a resize, and does nothing without a drag |
| Chart.MoveTravelsTwice | gui/chart_canvas.py:236-246 | as written, over any non-empty sequence of motion events, a moved bar's left edge travels twice the pointer's travel since the press, its width is unchanged, and the last pointer is recorded |
| Chart.ResizeGrabs | gui/chart_canvas.py:179-217 | pressing 2 px inside the right edge of member `a`'s bar for `(8, 10)` on a 340 px canvas starts a right resize of that schedule, both as written and with the corrected decode |
| Chart.ResizeAsWrittenOvershoots | gui/chart_canvas.py:249-264 | as written, dragging that edge to 198 and then 199 px commits `(8, 18)`: every event measures from the press and is applied twice |
| Chart.ResizeFollowsPointer | gui/chart_canvas.py:225-264 | with the corrected step, the same drag ends with the edge under the pointer and commits `(8, 12)` |
| Chart.CommitAsWritten | gui/chart_canvas.py:322-339 | the commit as written: rounded and clamped ends are kept when they form a range. Otherwise they are repaired to `(end - 1, end)` for a left resize, or `(start, start + 1)` otherwise, and then clamped again |
| Chart.CommitAsWrittenInverts | gui/chart_canvas.py:327-339 | a bar at hours `(40, 44)` commits as `(40, 24)`, and one at `(24, 28)` as `(24, 24)` |
| Chart.MoveOffChartCommitsInverted | gui/chart_canvas.py:226-339 | as written, on a 340 px canvas, one 100 px motion event on a move of the schedule `(20, 24)` carries the bar 200 px to hours `(40, 44)`, which commit as `(40, 24)` |
| Chart.Commit | gui/chart_canvas.py:322-339 | the corrected commit always gives `0 <= start < end <= 24` |
| Chart.CommitAgreesWhenValid | gui/chart_canvas.py:322-339 | wherever the commit as written gives a valid range, the corrected one gives the same range |
| Chart.CommitKeepsValidHours | gui/chart_canvas.py:323-339 | whole hours within `0 <= a < b <= 24` commit to themselves in every mode, both as written and corrected |
| Chart.EndDrag | gui/chart_canvas.py:314-362 | with the corrected commit: the drag always ends. No call is made exactly when the committed pair equals the original. Otherwise one `update_schedule` call is made with the decoded member, entry and index, and its new pair lies within the day |
| Chart.ClickWithoutMotionIsNoOp | gui/chart_canvas.py:174-344 | with the corrected decode and commit, pressing and releasing a bar drawn for a valid schedule without moving starts a drag and makes no store call, whatever the member's name |
| Chart.ReleaseWritesAtMostOnce | gui/chart_canvas.py:341-362 | a release ends the drag and saves at most once; with no call or no drag the store is untouched |
| Chart.ContextTargetAsWritten | gui/chart_canvas.py:374-387 | the context menu as written: no target without a bar tag; otherwise exactly what the decode as written reads from the first bar tag |
| Chart.StartDragAsWritten | gui/chart_canvas.py:174-217 | `start_drag` as written: the same cases as `StartDrag`, with the member, schedule and index read by the decode as written |
| Chart.EndDragAsWritten | gui/chart_canvas.py:314-362 | `end_drag` as written: the drag always ends; no call exactly when the as-written commit equals the original, otherwise one call with the as-written commit |
| Chart.ContextTargetAsWrittenOfDrawnBar | gui/chart_canvas.py:374-387 | as written, right-clicking a drawn bar names that bar's schedule when the member name has no `_` |
| Chart.ContextTargetAsWrittenMisreads | gui/chart_canvas.py:374-387 | as written, right-clicking the bar of member `a_1`, schedule `(9, 17)`, index 0 names member `a`, schedule `(1, 9)`, index 17 |
| Chart.ClickWithoutMotionAsWritten | gui/chart_canvas.py:174-344 | as written, a press and release without motion on a bar drawn for a valid schedule makes no store call when the member name has no `_` |
| Chart.ClickAsWrittenUpdatesWrongMember | gui/chart_canvas.py:149-344 | as written, merely clicking the bar of member `a_1`, schedule `(9, 17)`, index 0 on a 340 px canvas asks the store to change member `a`'s entry `(1, 9)` at index 17 to `(9, 17)` |
| Chart.MoveOffChartGrabs | gui/chart_canvas.py:179-217 | pressing the middle of the bar of member `a`'s schedule `(20, 24)` at index 0 starts a move of that schedule |
| Chart.MoveOffChartCallsInverted | gui/chart_canvas.py:225-344 | as written, on a 340 px canvas, dragging that bar 100 px right calls `update_schedule("a", (20, 24), 0, (40, 24))` |
| Chart.StoreAcceptsInverted | core/data_manager.py:141-161 | the store accepts that call: the only schedule `(20, 24)` becomes `(40, 24)` |
| Chart.MoveOffChartStoresInverted | gui/chart_canvas.py:225-362 | end to end, as written, that drag leaves the store holding the inverted range `(40, 24)` |
| BarTag.DigitRoundTrip | gui/chart_canvas.py:197 | a digit character reads back as its digit |
| BarTag.NatToStr | gui/chart_canvas.py:149 | `str(n)` of a natural number is a non-empty run of decimal digits |
| BarTag.IntToStr | gui/chart_canvas.py:149 | `str(n)` never contains the `_` separator |
| BarTag.ParseUnsigned | gui/chart_canvas.py:197-198 | an unsigned `int(s)` succeeds exactly on non-empty digit strings, with their decimal value |
| BarTag.ParseInt | gui/chart_canvas.py:197-198 | `int(s)` succeeds exactly on digits with an optional `+` or `-` sign; plain or `+` digits read as their decimal value, and `-` digits as its negation |
| BarTag.NatRoundTrip | gui/chart_canvas.py:149 | the digits of `n` have decimal value `n` |
| BarTag.IntRoundTrip | gui/chart_canvas.py:197 | `int(str(n)) == n` for every integer, negatives included |
| BarTag.NegativeRoundTrip | gui/chart_canvas.py:385-387 | a negative number reads back through the minus sign |
| BarTag.Split | gui/chart_canvas.py:194 | `split('_')` gives at least one piece, and no piece contains `_` |
| BarTag.JoinSplit | gui/chart_canvas.py:382 | joining the pieces of a split with `_` gives back the string |
| BarTag.SplitPlain | gui/chart_canvas.py:382 | a string without `_` splits into itself alone |
| BarTag.SplitJoined | gui/chart_canvas.py:194 | splitting `a + "_" + b` gives the pieces of `a` followed by those of `b` |
| BarTag.SplitJoin | gui/chart_canvas.py:194 | splitting a `_`-join of `_`-free pieces gives back exactly those pieces |
| BarTag.SplitJoinAround | gui/chart_canvas.py:149-198 | splitting a join whose pieces other than one middle piece are `_`-free gives those pieces around the middle piece's own split |
| BarTag.Encode | gui/chart_canvas.py:149 | every bar tag drawn starts with `schedule_bar_` and has more after it |
| BarTag.TextTag | gui/chart_canvas.py:149 | every text tag starts with `schedule_text_` and so never with `schedule_bar_` |
| BarTag.EncodeSplit | gui/chart_canvas.py:149-194 | a tag splits into `schedule`, `bar`, the pieces of the member name, then the three numbers |
| BarTag.DecodeAsWritten | gui/chart_canvas.py:194-198 | the decode as written fails on fewer than six pieces, and otherwise succeeds exactly when pieces 3, 4 and 5 parse as integers; it then takes the member from piece 2 and the start, end and index from pieces 3, 4 and 5 |
| BarTag.DecodeAsWrittenRoundTrip | gui/chart_canvas.py:149-198 | for a member name without `_`, the decode as written reads back exactly what was encoded |
| BarTag.DecodeAsWrittenShifts | gui/chart_canvas.py:194-198 | for a member named `word_k`, the decode as written reads member `word`, start `k`, and the real start and end as end and index |
| BarTag.DecodeAsWrittenMisreadsName | gui/chart_canvas.py:149-198 | the tag for member `a_1`, schedule `(9, 17)`, index 0 decodes as member `a`, schedule `(1, 9)`, index 17 |
| BarTag.Decode | gui/chart_canvas.py:194-198 | the corrected decode agrees with the decode as written on every six-piece tag, and fails on fewer pieces |
| BarTag.DecodeRoundTrip | gui/chart_canvas.py:149-198 | every tag the chart draws decodes back to its member, schedule and index, whatever the member's name |

## Left out

- Tk rendering and its effects are not modelled: drawing, text labels and their positions, cursors, context-menu and edit dialogs, `messagebox` errors, the redraw after a release. Only the state those handlers compute is modelled.
- The file I/O of `save_data` and `load_data` is not modelled. A save is a counter; a load takes the already-parsed entries, or `None` for a missing or undecodable file.
- Schedule entries in the file that are not two-element lists are not modelled; `tuple(s)` of such an entry is outside the `(int, int)` slot type.
- The load error path for a non-JSON exception part-way through the loop is not modelled. There the map is emptied, but the allocator may already have advanced. The model treats every load failure like the JSON decode error: empty map, fresh allocator.
- Colours are a ten-value datatype plus their Tk strings (`ColorManager.Name`). Stored colour strings outside the palette are read through `ColorManager.FromName` at load and replaced, which is what the source does, so the store only ever holds palette colours.
- Pixel and hour values are exact reals, not IEEE doubles. Python's `round` on a float is modelled on the exact value.
- `int()` accepts more than digits with a sign (surrounding whitespace, non-ASCII digits). Only digits with an optional sign are modelled. A tag field never contains whitespace unless a member name does.
- A zero hour width raises `ZeroDivisionError` inside a Tk handler (a canvas exactly 100 px wide, in the FamilyscheduleApp chart). The model requires a non-zero width for motion and release rather than modelling an aborted handler. The top-level chart's width is always at least 10 px.
- `FamilyChart.ChartParams`: `zoom_level` is a parameter, although nothing in the modelled files changes it from 1.0. The day fills the chart width only at zoom 1; `FamilyChart.AxisSpansDay` states where hour 24 lies for any zoom.
- `FamilyChart.Begin`: the tag scan of `drag_start` that turns the pressed item into a member name, index and mode (`find_closest`, `member_` and handle tags) is not modelled. `Begin` starts from its result. An unknown member raises `KeyError` there, and the model treats it as no drag starting.
- `find_closest` and `gettags` are not modelled; tags and coordinates are inputs.
- Chart.Step: is the corrected motion step: one shift per event, and the pointer recorded after a resize too. The source shifts a moved bar twice per handler run and runs the handler twice per event, and never records the pointer after a resize; that behaviour is `Chart.StepAsWritten` (see Findings). `Chart.Steps`, `Chart.MoveFollowsPointer` and `Chart.EndDrag` describe the corrected drag.
- `update_text_pos_and_content` is modelled only by its effect on the drag: its first call, `itemconfig` on the text tag, raises because the tag's first item is the rectangle. The label it would set is not modelled.
- `start_drag` and `end_drag` also run twice per event. The second `start_drag` records the same drag again, and the second `end_drag` finds no drag (`Chart.EndDragAsWritten` on `Idle` makes no call), so neither changes anything and the model runs them once.
- `Chart.StartDrag`, `Chart.ContextTarget` and `Chart.EndDrag` use the corrected `BarTag.Decode` and `Chart.Commit` (see Findings). The source's own behaviour is `Chart.StartDragAsWritten`, `Chart.ContextTargetAsWritten` and `Chart.EndDragAsWritten`.
- ContextTargetOfDrawnBar: holds of the corrected decode only. As written it holds only for member names without `_` (`Chart.ContextTargetAsWrittenOfDrawnBar`), and `Chart.ContextTargetAsWrittenMisreads` shows a name it fails for.
- ClickWithoutMotionIsNoOp: the `Chart` lemma holds of the corrected decode and commit. As written it holds only for member names without `_` (`Chart.ClickWithoutMotionAsWritten`), and `Chart.ClickAsWrittenUpdatesWrongMember` shows a click that writes to the wrong member.
- Schedules added through the dialogs are not validated by the store (`add_schedule` takes any pair), and the model does not validate them either.

## Findings

| source | as written | input that shows it | evidently intended | confidence | as-written member | corrected member |
|---|---|---|---|---|---|---|
| gui/chart_canvas.py:323-339 | a moved bar is never clamped to the axis. At release the start is only raised to 0 and the end only lowered to 24, and the repair is clamped again, so a start of 24 or more survives | schedule `(20, 24)` on a 340 px canvas dragged 100 px right travels 200 px: hours `(40, 44)` commit as `(40, 24)`; hours `(24, 28)` commit as `(24, 24)` | the committed range lies within the day and is at least one hour long | not executed | Chart.CommitAsWritten, Chart.CommitAsWrittenInverts, Chart.MoveOffChartCommitsInverted, Chart.MoveOffChartStoresInverted | Chart.Commit, Chart.CommitAgreesWhenValid |
| gui/chart_canvas.py:149 | the tag is `schedule_bar_{name}_{start}_{end}_{j}`, and the decode splits on every `_` and reads pieces 2 to 5, so a member name containing `_` shifts every field | member `a_1`, schedule `(9, 17)`, index 0 decodes as member `a`, schedule `(1, 9)`, index 17 | the decode reads back the member, schedule and index the tag was drawn for | not executed | BarTag.DecodeAsWritten, BarTag.DecodeAsWrittenMisreadsName, BarTag.DecodeAsWrittenShifts, Chart.ClickAsWrittenUpdatesWrongMember | BarTag.Decode, BarTag.DecodeRoundTrip |
| gui/chart_canvas.py:152-163, 236-246 | a move shifts the rectangle by `dx` through its item id and again through its text tag, which the rectangle also carries; and the rectangle's two bound tags run `drag_motion` twice per event | schedule `(20, 24)` on a 340 px canvas, one 100 px motion event: the bar lands at hours `(40, 44)` rather than `(30, 34)` | a moved bar follows the pointer | not executed | Chart.MotionRunAsWritten, Chart.StepAsWritten, Chart.MoveTravelsTwice, Chart.MoveOffChartCommitsInverted | Chart.Step, Chart.MoveFollowsPointer, Chart.StepTwiceIsStepOnce |
| gui/chart_canvas.py:155-163, 249-264, 305 | after a resize, `update_text_pos_and_content` raises at `itemconfig(text_tag, text=…)` (the tag's first item is the rectangle), so `start_x` is never updated and every later event measures from the press; the handler also runs twice per event | bar `(8, 10)` on a 340 px canvas, right edge pressed at 178 px and dragged to 198 then 199 px: commits `(8, 18)` | the edge follows the pointer, committing `(8, 12)` | not executed | Chart.MotionRunAsWritten, Chart.StepAsWritten, Chart.StepsAsWritten, Chart.ResizeAsWrittenOvershoots | Chart.Step, Chart.StepTwiceIsStepOnce, Chart.ResizeFollowsPointer |
