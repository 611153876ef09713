/**
 * The drag logic of the `FamilyscheduleApp` Gantt canvas: the chart
 * geometry, the three `drag_motion` branches (a snapped, duration-keeping
 * move and two snapped resizes with a one-hour minimum), and the commit of
 * `end_drag` with its "unchanged means no store call" rule. Tk coordinates
 * are inputs; the new bar, and the call to make, are outputs.
 */
module FamilyChart {
  import opened Wrappers
  import opened SlotOrder
  import opened PyRound
  import opened ChartAxis
  import DataManager

  /** `MARGIN_LEFT`. */
  const MarginLeft: int := 80

  /** `RIGHT_MARGIN`. */
  const RightMargin: int := 20

  /** `snap_interval`: one hour. */
  const SnapInterval: real := 1.0

  /** `min_duration_hours`: one hour. */
  const MinDuration: real := 1.0

  /** The axis of the chart: `chart_start_x`, `chart_end_x`, `hour_width`. */
  datatype Params = Params(startX: real, endX: real, hourWidth: real)

  /**
   * `get_chart_params` for a canvas `width` pixels wide at zoom `zoom`:
   * the axis runs from the left margin to the right margin, and one hour is
   * a 24th of that span times the zoom. Nothing bounds the width, so the
   * hour width is positive exactly for canvases wider than both margins.
   */
  function ChartParams(width: int, zoom: real): (p: Params)
    ensures p.startX == MarginLeft as real
    ensures p.endX - p.startX == (width - RightMargin - MarginLeft) as real
    ensures zoom == 1.0 ==> p.endX - p.startX == DayHours as real * p.hourWidth
    ensures zoom > 0.0 ==> (p.hourWidth > 0.0 <==> width > MarginLeft + RightMargin)
    ensures zoom > 0.0 ==> (p.hourWidth == 0.0 <==> width == MarginLeft + RightMargin)
  {
    var startX := MarginLeft as real;
    var endX := width as real - RightMargin as real;
    var chartWidth := endX - startX;
    Params(startX, endX, (chartWidth / 24.0) * zoom)
  }

  /**
   * The zoomed axis: hour 0 sits on the left margin and hour 24 lies `zoom`
   * chart widths to its right, so at zoom 1 the day ends on the right margin.
   */
  lemma AxisSpansDay(width: int, zoom: real)
    ensures var p := ChartParams(width, zoom);
            && HourToPixel(0.0, p.startX, p.hourWidth) == p.startX
            && HourToPixel(DayHours as real, p.startX, p.hourWidth) == p.startX + zoom * (p.endX - p.startX)
            && (zoom == 1.0 ==> HourToPixel(DayHours as real, p.startX, p.hourWidth) == p.endX)
            && (zoom > 0.0 && width != MarginLeft + RightMargin ==>
                  PixelToHour(p.startX + zoom * (p.endX - p.startX), p.startX, p.hourWidth) == DayHours as real)
  {
    var p := ChartParams(width, zoom);
    var w := p.endX - p.startX;
    assert p.hourWidth == (w / 24.0) * zoom;
    assert 24.0 * ((w / 24.0) * zoom) == zoom * w;
    if zoom > 0.0 && width != MarginLeft + RightMargin {
      AxisInverse(0.0, DayHours as real, p.startX, p.hourWidth);
    }
  }

  /** `round(h / snap_interval) * snap_interval`: the nearest whole hour, ties to even. */
  function Snap(h: real): (r: int)
    ensures -Half <= r as real - h <= Half
    ensures (r as real - h == Half || h - r as real == Half) ==> r % 2 == 0
  {
    Round(h / SnapInterval)
  }

  // ---------------------------------------------------------------------
  // drag_motion
  // ---------------------------------------------------------------------

  /**
   * The hour arithmetic of the move branch: the snapped start is kept at
   * or after 0, the end is the start plus the original duration, and a bar
   * that would pass 24 is pushed back to end at 24 unless that moves its
   * start before 0.
   */
  function MoveSpan(snapped: int, duration: int): (r: (int, int))
    ensures r.1 - r.0 == duration
    ensures r.0 >= 0
    ensures 0 <= duration <= DayHours ==> r.1 <= DayHours
    ensures 0 <= snapped && snapped + duration <= DayHours ==> r == (snapped, snapped + duration)
    ensures duration <= DayHours && snapped + duration > DayHours ==> r.1 == DayHours
    ensures snapped < 0 ==> r.0 == 0
  {
    var start := if snapped < 0 then 0 else snapped;
    var end := start + duration;
    if end > DayHours then
      var start' := DayHours - duration;
      if start' < 0 then (0, duration) else (start', DayHours)
    else (start, end)
  }

  /**
   * The new start of the resize_left branch: the snapped start, pulled back
   * to one hour before the bar's current end when it comes closer than
   * that, then raised to 0.
   */
  function ResizeLeftStart(snapped: int, currentEnd: real): (r: real)
    ensures r >= 0.0
    ensures currentEnd >= MinDuration ==> r <= currentEnd - MinDuration
    ensures 0.0 <= snapped as real < currentEnd - MinDuration ==> r == snapped as real
    ensures snapped as real >= currentEnd - MinDuration && currentEnd >= MinDuration ==> r == currentEnd - MinDuration
    ensures snapped < 0 ==> r == 0.0
  {
    var s := if snapped as real >= currentEnd - MinDuration then currentEnd - MinDuration else snapped as real;
    if s < 0.0 then 0.0 else s
  }

  /**
   * The new end of the resize_right branch: the snapped end, pushed out to
   * one hour after the bar's current start when it comes closer than that,
   * then lowered to 24.
   */
  function ResizeRightEnd(snapped: int, currentStart: real): (r: real)
    ensures r <= DayHours as real
    ensures currentStart <= DayHours as real - MinDuration ==> r >= currentStart + MinDuration
    ensures currentStart + MinDuration < snapped as real <= DayHours as real ==> r == snapped as real
    ensures snapped as real <= currentStart + MinDuration && currentStart <= DayHours as real - MinDuration ==>
              r == currentStart + MinDuration
    ensures snapped > DayHours ==> r == DayHours as real
  {
    var e := if snapped as real <= currentStart + MinDuration then currentStart + MinDuration else snapped as real;
    if e > DayHours as real then DayHours as real else e
  }

  /**
   * `drag_data` between press and release. `xOffset` is the pointer's
   * distance from the bar's left edge at the press; `bar` is the rectangle
   * as the canvas currently holds it.
   */
  datatype DragState =
    | Idle
    | Dragging(mode: Mode, member: string, original: Slot, index: int, xOffset: real, bar: Bar)

  /**
   * The end of `drag_start`, once the pressed item has been resolved to a
   * member, a schedule index and a mode: nothing happens for an unknown or
   * empty name or an index outside the member's list; otherwise the drag
   * starts from that schedule entry.
   */
  function Begin(st: DataManager.Store, s: DragState, mode: Mode, member: string, index: int, bar: Bar, pointerX: real)
    : (r: DragState)
    ensures !(member != "" && member in st.members && 0 <= index < |st.members[member].schedules|) ==> r == s
    ensures (member != "" && member in st.members && 0 <= index < |st.members[member].schedules|) ==>
              && r.Dragging?
              && r.mode == mode && r.bar == bar && r.member == member && r.index == index
              && r.original == st.members[member].schedules[index]
              && r.bar.x1 + r.xOffset == pointerX
  {
    if member == "" || member !in st.members then s
    else if !(0 <= index < |st.members[member].schedules|) then s
    else Dragging(mode, member, st.members[member].schedules[index], index, pointerX - bar.x1, bar)
  }

  /**
   * `drag_motion` with the pointer at `pointerX`: with no drag in progress
   * nothing happens; otherwise the bar follows the branch of its mode, with
   * its y coordinates kept.
   */
  function Motion(p: Params, s: DragState, pointerX: real): (r: DragState)
    requires p.hourWidth != 0.0
    ensures s.Idle? ==> r == s
    ensures s.Dragging? ==>
              && r.Dragging?
              && r == s.(bar := r.bar)
              && r.bar.y1 == s.bar.y1 && r.bar.y2 == s.bar.y2
    ensures s.Dragging? && s.mode == ResizeLeft ==> r.bar.x2 == s.bar.x2
    ensures s.Dragging? && s.mode == ResizeRight ==> r.bar.x1 == s.bar.x1
    ensures s.Dragging? && s.mode == Move ==>
              var span := MoveSpan(Snap(PixelToHour(pointerX - s.xOffset, p.startX, p.hourWidth)),
                                   s.original.1 - s.original.0);
              && PixelToHour(r.bar.x1, p.startX, p.hourWidth) == span.0 as real
              && PixelToHour(r.bar.x2, p.startX, p.hourWidth) == span.1 as real
    ensures s.Dragging? && s.mode == ResizeLeft ==>
              PixelToHour(r.bar.x1, p.startX, p.hourWidth)
                == ResizeLeftStart(Snap(PixelToHour(pointerX, p.startX, p.hourWidth)),
                                   PixelToHour(s.bar.x2, p.startX, p.hourWidth))
    ensures s.Dragging? && s.mode == ResizeRight ==>
              PixelToHour(r.bar.x2, p.startX, p.hourWidth)
                == ResizeRightEnd(Snap(PixelToHour(pointerX, p.startX, p.hourWidth)),
                                  PixelToHour(s.bar.x1, p.startX, p.hourWidth))
  {
    match s
    case Idle => s
    case Dragging(mode, _, original, _, xOffset, bar) =>
      var newBar :=
        match mode
        case Move =>
          var snapped := Snap(PixelToHour(pointerX - xOffset, p.startX, p.hourWidth));
          var (start, end) := MoveSpan(snapped, original.1 - original.0);
          bar.(x1 := HourToPixel(start as real, p.startX, p.hourWidth),
               x2 := HourToPixel(end as real, p.startX, p.hourWidth))
        case ResizeLeft =>
          var snapped := Snap(PixelToHour(pointerX, p.startX, p.hourWidth));
          var start := ResizeLeftStart(snapped, PixelToHour(bar.x2, p.startX, p.hourWidth));
          bar.(x1 := HourToPixel(start, p.startX, p.hourWidth))
        case ResizeRight =>
          var snapped := Snap(PixelToHour(pointerX, p.startX, p.hourWidth));
          var end := ResizeRightEnd(snapped, PixelToHour(bar.x1, p.startX, p.hourWidth));
          bar.(x2 := HourToPixel(end, p.startX, p.hourWidth));
      s.(bar := newBar)
  }

  /**
   * A move keeps the bar's length in hours equal to the original
   * schedule's, and a bar no longer than a day stays inside the day.
   */
  lemma MoveKeepsDuration(p: Params, s: DragState, pointerX: real)
    requires p.hourWidth != 0.0
    requires s.Dragging? && s.mode == Move
    ensures var r := Motion(p, s, pointerX);
            var h1 := PixelToHour(r.bar.x1, p.startX, p.hourWidth);
            var h2 := PixelToHour(r.bar.x2, p.startX, p.hourWidth);
            var duration := s.original.1 - s.original.0;
            && h2 - h1 == duration as real
            && h1 >= 0.0
            && (0 <= duration <= DayHours ==> h2 <= DayHours as real)
  {
    var snapped := Snap(PixelToHour(pointerX - s.xOffset, p.startX, p.hourWidth));
    var (start, end) := MoveSpan(snapped, s.original.1 - s.original.0);
    AxisInverse(0.0, start as real, p.startX, p.hourWidth);
    AxisInverse(0.0, end as real, p.startX, p.hourWidth);
  }

  /** A left resize leaves at least one hour before the right edge, and never starts before 0. */
  lemma ResizeLeftKeepsMinimum(p: Params, s: DragState, pointerX: real)
    requires p.hourWidth != 0.0
    requires s.Dragging? && s.mode == ResizeLeft
    ensures var r := Motion(p, s, pointerX);
            var h1 := PixelToHour(r.bar.x1, p.startX, p.hourWidth);
            var end := PixelToHour(s.bar.x2, p.startX, p.hourWidth);
            && h1 >= 0.0
            && (end >= MinDuration ==> h1 <= end - MinDuration)
  {
    var end := PixelToHour(s.bar.x2, p.startX, p.hourWidth);
    var start := ResizeLeftStart(Snap(PixelToHour(pointerX, p.startX, p.hourWidth)), end);
    AxisInverse(0.0, start, p.startX, p.hourWidth);
  }

  /** A right resize leaves at least one hour after the left edge, and never ends after 24. */
  lemma ResizeRightKeepsMinimum(p: Params, s: DragState, pointerX: real)
    requires p.hourWidth != 0.0
    requires s.Dragging? && s.mode == ResizeRight
    ensures var r := Motion(p, s, pointerX);
            var h2 := PixelToHour(r.bar.x2, p.startX, p.hourWidth);
            var start := PixelToHour(s.bar.x1, p.startX, p.hourWidth);
            && h2 <= DayHours as real
            && (start <= DayHours as real - MinDuration ==> h2 >= start + MinDuration)
  {
    var start := PixelToHour(s.bar.x1, p.startX, p.hourWidth);
    var end := ResizeRightEnd(Snap(PixelToHour(pointerX, p.startX, p.hourWidth)), start);
    AxisInverse(0.0, end, p.startX, p.hourWidth);
  }

  // ---------------------------------------------------------------------
  // end_drag
  // ---------------------------------------------------------------------

  /**
   * The committed hours of `end_drag`: both ends rounded, the start raised
   * to 0, the end lowered to 24, and a collapsed range repaired to one hour
   * after the start. The start has no upper clamp and the repair is not
   * clamped again, so a start of 24 or more commits one hour past 24.
   */
  function Commit(startHour: real, endHour: real): (r: Slot)
    ensures r.0 < r.1
    ensures r.0 >= 0
    ensures r.0 == (if Round(startHour) < 0 then 0 else Round(startHour))
    ensures Round(endHour) <= DayHours && r.0 < Round(endHour) ==> r.1 == Round(endHour)
    ensures r.1 > DayHours ==> r.1 == r.0 + 1
    ensures r.0 < DayHours ==> r.1 <= DayHours
    ensures var e := if Round(endHour) > DayHours then DayHours else Round(endHour);
            r.1 == (if e <= r.0 then r.0 + 1 else e)
  {
    var s := Round(startHour);
    var e := Round(endHour);
    var s' := if s < 0 then 0 else s;
    var e' := if e > DayHours then DayHours else e;
    if e' <= s' then (s', s' + 1) else (s', e')
  }

  /** Whole hours already inside the day commit to themselves. */
  lemma CommitKeepsValidHours(a: int, b: int)
    requires 0 <= a < b <= DayHours
    ensures Commit(a as real, b as real) == (a, b)
  {
    RoundInt(a);
    RoundInt(b);
  }

  /** A bar whose start rounds to 24 commits as `(24, 25)`, one past the axis. */
  lemma CommitCanPassDayEnd()
    ensures Commit(24.0, 24.0) == (24, 25)
  {
    RoundInt(24);
  }

  /** `(8.6, 17.2)` commits as `(9, 17)`. */
  lemma CommitExample()
    ensures Commit(8.6, 17.2) == (9, 17)
  {
    RoundUnique(8.6, 9);
    RoundUnique(17.2, 17);
  }

  /**
   * `end_drag`: with no drag in progress nothing happens. Otherwise the
   * bar's edges are turned into hours and committed; when the result equals
   * the original schedule no call is made, else one `update_schedule` call
   * with the original entry and index. The drag always ends.
   */
  function EndDrag(p: Params, s: DragState): (r: (DragState, Option<UpdateCall>))
    requires p.hourWidth != 0.0
    ensures r.0 == Idle
    ensures s.Idle? ==> r.1.None?
    ensures s.Dragging? ==>
              var c := Commit(PixelToHour(s.bar.x1, p.startX, p.hourWidth), PixelToHour(s.bar.x2, p.startX, p.hourWidth));
              && (r.1.None? <==> c == s.original)
              && (r.1.Some? ==> r.1.value == UpdateCall(s.member, s.original, s.index, c))
  {
    match s
    case Idle => (Idle, None)
    case Dragging(_, member, original, index, _, bar) =>
      var committed := Commit(PixelToHour(bar.x1, p.startX, p.hourWidth), PixelToHour(bar.x2, p.startX, p.hourWidth));
      if committed == original then (Idle, None)
      else (Idle, Some(UpdateCall(member, original, index, committed)))
  }

  /**
   * The rectangle `update_gantt_chart` draws for a schedule: its hours on
   * the axis, with the left edge raised to the axis start and the right
   * edge lowered to the axis end.
   */
  function DrawnBar(p: Params, slot: Slot, y1: real, y2: real): (b: Bar)
    ensures b.y1 == y1 && b.y2 == y2
    ensures b.x1 >= p.startX && b.x2 <= p.endX
    ensures b.x1 >= HourToPixel(slot.0 as real, p.startX, p.hourWidth)
    ensures b.x2 <= HourToPixel(slot.1 as real, p.startX, p.hourWidth)
    ensures b.x1 == p.startX || b.x1 == HourToPixel(slot.0 as real, p.startX, p.hourWidth)
    ensures b.x2 == p.endX || b.x2 == HourToPixel(slot.1 as real, p.startX, p.hourWidth)
  {
    var x1 := HourToPixel(slot.0 as real, p.startX, p.hourWidth);
    var x2 := HourToPixel(slot.1 as real, p.startX, p.hourWidth);
    Bar(if x1 < p.startX then p.startX else x1, y1, if x2 > p.endX then p.endX else x2, y2)
  }

  /**
   * At zoom 1 on a canvas wider than its margins, a schedule inside the day
   * is drawn unclipped, at exactly its hours.
   */
  lemma DrawnBarInsideDay(width: int, slot: Slot, y1: real, y2: real)
    requires width > MarginLeft + RightMargin
    requires 0 <= slot.0 < slot.1 <= DayHours
    ensures var p := ChartParams(width, 1.0);
            DrawnBar(p, slot, y1, y2)
              == Bar(HourToPixel(slot.0 as real, p.startX, p.hourWidth), y1,
                     HourToPixel(slot.1 as real, p.startX, p.hourWidth), y2)
  {
    var p := ChartParams(width, 1.0);
    var hw := p.hourWidth;
    assert hw > 0.0;
    assert (slot.0 as real) * hw >= 0.0;
    assert (DayHours as real - slot.1 as real) * hw >= 0.0;
  }

  /**
   * Pressing on a schedule's bar, as the app draws it at zoom 1, and
   * releasing it without moving calls nothing: the bar of a stored range
   * inside the day reads back as that range.
   */
  lemma ClickWithoutMotionIsNoOp(width: int, st: DataManager.Store, mode: Mode, member: string, index: int,
                                 y1: real, y2: real, pointerX: real)
    requires width > MarginLeft + RightMargin
    requires member != "" && member in st.members && 0 <= index < |st.members[member].schedules|
    requires 0 <= st.members[member].schedules[index].0 < st.members[member].schedules[index].1 <= DayHours
    ensures var p := ChartParams(width, 1.0);
            var bar := DrawnBar(p, st.members[member].schedules[index], y1, y2);
            var s := Begin(st, Idle, mode, member, index, bar, pointerX);
            s.Dragging? && EndDrag(p, s).1.None?
  {
    var p := ChartParams(width, 1.0);
    var slot := st.members[member].schedules[index];
    DrawnBarInsideDay(width, slot, y1, y2);
    AxisInverse(0.0, slot.0 as real, p.startX, p.hourWidth);
    AxisInverse(0.0, slot.1 as real, p.startX, p.hourWidth);
    CommitKeepsValidHours(slot.0, slot.1);
  }

  /**
   * A move of a schedule lasting between one hour and a day commits to a
   * range of the same length inside the day: the moved start is a whole
   * hour, so the commit reads back exactly what the move drew.
   */
  lemma MoveThenCommit(p: Params, s: DragState, pointerX: real)
    requires p.hourWidth != 0.0
    requires s.Dragging? && s.mode == Move
    requires 1 <= s.original.1 - s.original.0 <= DayHours
    ensures var r := Motion(p, s, pointerX);
            var c := Commit(PixelToHour(r.bar.x1, p.startX, p.hourWidth), PixelToHour(r.bar.x2, p.startX, p.hourWidth));
            && 0 <= c.0 < c.1 <= DayHours
            && c.1 - c.0 == s.original.1 - s.original.0
  {
    var snapped := Snap(PixelToHour(pointerX - s.xOffset, p.startX, p.hourWidth));
    var (start, end) := MoveSpan(snapped, s.original.1 - s.original.0);
    AxisInverse(0.0, start as real, p.startX, p.hourWidth);
    AxisInverse(0.0, end as real, p.startX, p.hourWidth);
    CommitKeepsValidHours(start, end);
  }

  /**
   * The release as a whole: the drag ends, and the store is written at most
   * once; when the committed hours equal the original it is not touched.
   */
  lemma ReleaseWritesAtMostOnce(p: Params, s: DragState, st: DataManager.Store)
    requires p.hourWidth != 0.0
    ensures var (s', call) := EndDrag(p, s);
            var st' := Release(st, call);
            && s' == Idle
            && st.saves <= st'.saves <= st.saves + 1
            && (call.None? ==> st' == st)
            && (s.Idle? ==> st' == st)
  {
  }
}
