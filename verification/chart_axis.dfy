/**
 * What both Gantt canvases share: the linear map between pixels and hours
 * along the time axis, the three drag modes, a bar's rectangle, and the
 * single `update_schedule` call a finished drag may make.
 */
module ChartAxis {
  import opened Wrappers
  import opened SlotOrder
  import DataManager

  /** Hours on the axis: 0 to 24. */
  const DayHours: int := 24

  /** How a bar is being dragged. */
  datatype Mode = Move | ResizeLeft | ResizeRight

  /** A bar's canvas rectangle `(x1, y1, x2, y2)`. */
  datatype Bar = Bar(x1: real, y1: real, x2: real, y2: real)

  /** The call `end_drag` makes: `update_schedule(member, old, index, new)`. */
  datatype UpdateCall = UpdateCall(member: string, oldSlot: Slot, index: int, newSlot: Slot)

  /** Pixel to hour: `(x - chart_start_x) / hour_width`. */
  function PixelToHour(x: real, startX: real, hourWidth: real): (h: real)
    requires hourWidth != 0.0
    ensures startX + h * hourWidth == x
  {
    (x - startX) / hourWidth
  }

  /** Hour to pixel: `chart_start_x + h * hour_width`. */
  function HourToPixel(h: real, startX: real, hourWidth: real): (x: real)
    ensures hourWidth != 0.0 ==> PixelToHour(x, startX, hourWidth) == h
    ensures h == 0.0 ==> x == startX
  {
    assert hourWidth != 0.0 ==> (h * hourWidth) / hourWidth == h;
    startX + h * hourWidth
  }

  /** With a non-zero hour width the two maps undo each other, both ways round. */
  lemma AxisInverse(x: real, h: real, startX: real, hourWidth: real)
    requires hourWidth != 0.0
    ensures PixelToHour(HourToPixel(h, startX, hourWidth), startX, hourWidth) == h
    ensures HourToPixel(PixelToHour(x, startX, hourWidth), startX, hourWidth) == x
  {
    assert HourToPixel(h, startX, hourWidth) - startX == h * hourWidth;
    assert (h * hourWidth) / hourWidth == h;
    var q := (x - startX) / hourWidth;
    assert q * hourWidth == x - startX;
  }

  /** With a positive hour width, pixel order and hour order agree. */
  lemma AxisMonotone(x: real, y: real, startX: real, hourWidth: real)
    requires hourWidth > 0.0
    ensures x <= y <==> PixelToHour(x, startX, hourWidth) <= PixelToHour(y, startX, hourWidth)
  {
    var hx, hy := PixelToHour(x, startX, hourWidth), PixelToHour(y, startX, hourWidth);
    AxisInverse(x, hx, startX, hourWidth);
    AxisInverse(y, hy, startX, hourWidth);
    assert y - x == (hy - hx) * hourWidth;
    ScaleKeepsSign(hy - hx, hourWidth);
  }

  /** Scaling by a positive width keeps the sign of a difference. */
  lemma ScaleKeepsSign(d: real, w: real)
    requires w > 0.0
    ensures d * w >= 0.0 <==> d >= 0.0
  {
    if d < 0.0 {
      assert (-d) * w > 0.0;
    }
  }

  /**
   * The store after a finished drag: with no call it is untouched; with a
   * call it is whatever `update_schedule` leaves, so either the one entry is
   * replaced and one save happens, or nothing changes at all.
   */
  function Release(st: DataManager.Store, call: Option<UpdateCall>): (r: DataManager.Store)
    ensures call.None? ==> r == st
    ensures st.saves <= r.saves <= st.saves + 1
    ensures r.saves == st.saves ==> r == st
    ensures r.colors == st.colors && r.members.Keys == st.members.Keys
  {
    match call
    case None => st
    case Some(c) => DataManager.UpdateSchedule(st, c.member, c.oldSlot, c.index, c.newSlot).store
  }
}
