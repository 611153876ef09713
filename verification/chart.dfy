/**
 * The drag logic of the top-level Gantt canvas: the chart geometry with its
 * ten-pixel-per-hour floor, `start_drag` (find the bar tag, decode it, pick
 * the mode by an edge hit-test), the incremental `dx` steps of
 * `drag_motion`, and the commit of `end_drag`. Tk coordinates and tags are
 * inputs; the new bar, and the call to make, are outputs.
 */
module Chart {
  import opened Wrappers
  import opened SlotOrder
  import opened PyRound
  import opened ChartAxis
  import opened BarTag
  import DataManager

  /** `MARGIN_LEFT`. */
  const MarginLeft: int := 80

  /** `RIGHT_MARGIN`. */
  const RightMargin: int := 20

  /** The least pixels per hour: the drawing width is floored at `24 * 10`. */
  const MinHourWidth: int := 10

  /** `RESIZE_HANDLE_WIDTH`: how near an edge a press must be to resize. */
  const HandleWidth: real := 10.0

  /** The axis of the chart: `chart_start_x`, `chart_end_x`, `hour_width`. */
  datatype Params = Params(startX: real, endX: real, hourWidth: real)

  /**
   * `get_chart_params` for a canvas `width` pixels wide: the drawing width
   * is the width less both margins, but never under 240 pixels; an hour is
   * a 24th of it, and the axis is 24 hours long.
   */
  function ChartParams(width: int): (p: Params)
    ensures p.startX == MarginLeft as real
    ensures p.hourWidth >= MinHourWidth as real
    ensures p.endX - p.startX == DayHours as real * p.hourWidth
    ensures width - MarginLeft - RightMargin >= DayHours * MinHourWidth ==>
              p.hourWidth * DayHours as real == (width - MarginLeft - RightMargin) as real
    ensures width - MarginLeft - RightMargin < DayHours * MinHourWidth ==> p.hourWidth == MinHourWidth as real
  {
    var available := width - MarginLeft - RightMargin;
    var drawing := if available < DayHours * MinHourWidth then DayHours * MinHourWidth else available;
    var hourWidth := drawing as real / 24.0;
    Params(MarginLeft as real, MarginLeft as real + 24.0 * hourWidth, hourWidth)
  }

  /** `abs` on reals. */
  function Abs(x: real): (r: real)
    ensures r >= 0.0 && (r == x || r == -x)
  {
    if x < 0.0 then -x else x
  }

  /** Python's `max` of two numbers. */
  function Max(a: real, b: real): (r: real)
    ensures r >= a && r >= b && (r == a || r == b)
  {
    if a >= b then a else b
  }

  /** Python's `min` of two numbers. */
  function Min(a: real, b: real): (r: real)
    ensures r <= a && r <= b && (r == a || r == b)
  {
    if a <= b then a else b
  }

  /**
   * The axis spans the day: hour 0 is drawn at the axis start and hour 24
   * at its end, and the end reads back as hour 24.
   */
  lemma AxisSpansDay(width: int)
    ensures var p := ChartParams(width);
            && HourToPixel(0.0, p.startX, p.hourWidth) == p.startX
            && HourToPixel(DayHours as real, p.startX, p.hourWidth) == p.endX
            && PixelToHour(p.endX, p.startX, p.hourWidth) == DayHours as real
  {
    var p := ChartParams(width);
    AxisInverse(p.endX, DayHours as real, p.startX, p.hourWidth);
  }

  /**
   * The mode chosen at the press: resize_left when the pointer is within
   * the handle width of the left edge, else resize_right when within it of
   * the right edge, else move. The left edge wins when both are near.
   */
  function HitTest(x: real, x1: real, x2: real): (m: Mode)
    ensures m == ResizeLeft <==> Abs(x - x1) < HandleWidth
    ensures m == ResizeRight <==> Abs(x - x1) >= HandleWidth && Abs(x - x2) < HandleWidth
    ensures m == Move <==> Abs(x - x1) >= HandleWidth && Abs(x - x2) >= HandleWidth
  {
    if Abs(x - x1) < HandleWidth then ResizeLeft
    else if Abs(x - x2) < HandleWidth then ResizeRight
    else Move
  }

  // ---------------------------------------------------------------------
  // Tags
  // ---------------------------------------------------------------------

  /** `tag.startswith("schedule_bar_")`: the tag is the prefix followed by whatever remains. */
  predicate IsBarTag(tag: string): (b: bool)
    ensures b <==> |BarPrefix| <= |tag| && tag == BarPrefix + tag[|BarPrefix|..]
  {
    assert |BarPrefix| <= |tag| ==> tag == tag[..|BarPrefix|] + tag[|BarPrefix|..];
    |BarPrefix| <= |tag| && tag[..|BarPrefix|] == BarPrefix
  }

  /**
   * The tags the chart gives a bar's rectangle, and its label too:
   * `(bar_tag, text_tag, name)`, the bar tag first.
   */
  function ItemTags(t: Target): (tags: seq<string>)
    ensures |tags| == 3 && tags[2] == t.member
    ensures IsBarTag(tags[0]) && !IsBarTag(tags[1])
    ensures FindBarTag(tags) == Some(Encode(t))
  {
    [Encode(t), TextTag(t), t.member]
  }

  /** The first bar tag among an item's tags, if any. */
  function FindBarTag(tags: seq<string>): (r: Option<string>)
    ensures r.None? <==> forall i :: 0 <= i < |tags| ==> !IsBarTag(tags[i])
    ensures r.Some? ==> r.value in tags && IsBarTag(r.value)
    ensures r.Some? ==> exists i :: 0 <= i < |tags| && tags[i] == r.value && forall j :: 0 <= j < i ==> !IsBarTag(tags[j])
  {
    if |tags| == 0 then None
    else if IsBarTag(tags[0]) then Some(tags[0])
    else
      var r := FindBarTag(tags[1..]);
      assert forall j :: 0 < j < |tags| ==> tags[j] == tags[1..][j - 1];
      r
  }

  /**
   * The decode of `show_context_menu`: the pressed item's first bar tag,
   * read back; `None` (no menu) when there is no bar tag or it does not
   * decode.
   */
  function ContextTarget(tags: seq<string>): (r: Option<Target>)
    ensures FindBarTag(tags).Some? ==> r == Decode(FindBarTag(tags).value)
    ensures FindBarTag(tags).None? ==> r.None?
  {
    match FindBarTag(tags)
    case None => None
    case Some(tag) => Decode(tag)
  }

  /** The context menu of a bar drawn with an encoded tag names that bar's schedule. */
  lemma ContextTargetOfDrawnBar(t: Target, others: seq<string>)
    requires forall i :: 0 <= i < |others| ==> !IsBarTag(others[i])
    ensures ContextTarget(others + [Encode(t)]) == Some(t)
    ensures ContextTarget(ItemTags(t)) == Some(t)
  {
    DecodeRoundTrip(t);
    var tags := others + [Encode(t)];
    assert forall i :: 0 <= i < |others| ==> tags[i] == others[i];
    assert tags[|others|] == Encode(t);
  }

  // ---------------------------------------------------------------------
  // start_drag and drag_motion
  // ---------------------------------------------------------------------

  /**
   * `drag_data` between press and release: the mode, the decoded schedule,
   * the bar's rectangle as the canvas holds it, and `start_x`, the pointer
   * position of the previous event.
   */
  datatype DragState =
    | Idle
    | Dragging(mode: Mode, member: string, original: Slot, index: int, bar: Bar, lastX: real)

  /**
   * `start_drag` on an item with `tags` and canvas coordinates `coords`
   * (four for a bar, two for a text item): without a bar tag nothing
   * changes; when the tag does not decode, or the item is not a rectangle,
   * the drag is cancelled; otherwise the drag starts in the hit-tested mode.
   */
  function StartDrag(s: DragState, tags: seq<string>, coords: seq<real>, pointerX: real): (r: DragState)
    ensures FindBarTag(tags).None? ==> r == s
    ensures FindBarTag(tags).Some? && (Decode(FindBarTag(tags).value).None? || |coords| != 4) ==> r == Idle
    ensures FindBarTag(tags).Some? && Decode(FindBarTag(tags).value).Some? && |coords| == 4 ==>
              var t := Decode(FindBarTag(tags).value).value;
              && r.Dragging?
              && r.member == t.member && r.original == (t.start, t.end) && r.index == t.index
              && r.bar == Bar(coords[0], coords[1], coords[2], coords[3])
              && r.mode == HitTest(pointerX, coords[0], coords[2])
              && r.lastX == pointerX
  {
    match FindBarTag(tags)
    case None => s
    case Some(tag) =>
      match Decode(tag)
      case None => Idle
      case Some(t) =>
        if |coords| != 4 then Idle
        else
          Dragging(HitTest(pointerX, coords[0], coords[2]), t.member, (t.start, t.end), t.index,
                   Bar(coords[0], coords[1], coords[2], coords[3]), pointerX)
  }

  /**
   * The motion step `drag_motion` is evidently meant to take, with the
   * pointer at `pointerX`, `dx` pixels from the previous event: a move
   * shifts the bar by `dx`; a left resize moves the left edge by `dx`, but
   * not before the axis start nor within one hour of the right edge; a
   * right resize likewise for the right edge. The pointer position is then
   * remembered for the next event. The step as written is `StepAsWritten`.
   */
  function Step(p: Params, s: DragState, pointerX: real): (r: DragState)
    ensures s.Idle? ==> r == s
    ensures s.Dragging? ==>
              && r.Dragging?
              && r == s.(bar := r.bar, lastX := pointerX)
              && r.bar.y1 == s.bar.y1 && r.bar.y2 == s.bar.y2
    ensures s.Dragging? && s.mode == Move ==>
              var dx := pointerX - s.lastX;
              r.bar.x1 == s.bar.x1 + dx && r.bar.x2 == s.bar.x2 + dx
    ensures s.Dragging? && s.mode == ResizeLeft ==>
              r.bar.x1 == Min(Max(p.startX, s.bar.x1 + (pointerX - s.lastX)), s.bar.x2 - p.hourWidth)
    ensures s.Dragging? && s.mode == ResizeRight ==>
              r.bar.x2 == Max(Min(p.endX, s.bar.x2 + (pointerX - s.lastX)), s.bar.x1 + p.hourWidth)
    ensures s.Dragging? && s.mode == ResizeLeft ==>
              && r.bar.x2 == s.bar.x2
              && r.bar.x2 - r.bar.x1 >= p.hourWidth
              && (r.bar.x1 >= p.startX || r.bar.x1 == s.bar.x2 - p.hourWidth)
    ensures s.Dragging? && s.mode == ResizeRight ==>
              && r.bar.x1 == s.bar.x1
              && r.bar.x2 - r.bar.x1 >= p.hourWidth
              && (r.bar.x2 <= p.endX || r.bar.x2 == s.bar.x1 + p.hourWidth)
  {
    match s
    case Idle => s
    case Dragging(mode, _, _, _, bar, lastX) =>
      var dx := pointerX - lastX;
      var newBar :=
        match mode
        case Move => bar.(x1 := bar.x1 + dx, x2 := bar.x2 + dx)
        case ResizeLeft => bar.(x1 := Min(Max(p.startX, bar.x1 + dx), bar.x2 - p.hourWidth))
        case ResizeRight => bar.(x2 := Max(Min(p.endX, bar.x2 + dx), bar.x1 + p.hourWidth));
      s.(bar := newBar, lastX := pointerX)
  }

  /** The motion events of one drag, in order. */
  function Steps(p: Params, s: DragState, xs: seq<real>): (r: DragState)
    ensures s.Idle? ==> r == s
    ensures s.Dragging? ==> r.Dragging? && r.mode == s.mode && r.original == s.original
    decreases |xs|
  {
    if |xs| == 0 then s else Steps(p, Step(p, s, xs[0]), xs[1..])
  }

  /**
   * Because each corrected step remembers the pointer, the steps of a move add up to
   * the total pointer travel: the bar ends where the pointer's displacement
   * since the press puts it, with its width unchanged.
   */
  lemma {:induction false} MoveFollowsPointer(p: Params, s: DragState, xs: seq<real>)
    requires s.Dragging? && s.mode == Move
    requires |xs| > 0
    ensures var r := Steps(p, s, xs);
            && r.bar.x1 == s.bar.x1 + (xs[|xs| - 1] - s.lastX)
            && r.bar.x2 - r.bar.x1 == s.bar.x2 - s.bar.x1
            && r.lastX == xs[|xs| - 1]
    decreases |xs|
  {
    var s' := Step(p, s, xs[0]);
    if |xs| > 1 {
      MoveFollowsPointer(p, s', xs[1..]);
      assert xs[1..][|xs[1..]| - 1] == xs[|xs| - 1];
    }
  }

  /**
   * Tk runs `drag_motion` once for each of the bar's bound tags. With the
   * pointer recorded by the first run, the second run is a no-op.
   */
  lemma StepTwiceIsStepOnce(p: Params, s: DragState, pointerX: real)
    ensures Step(p, Step(p, s, pointerX), pointerX) == Step(p, s, pointerX)
  {
  }

  // ---------------------------------------------------------------------
  // drag_motion as written
  // ---------------------------------------------------------------------

  /**
   * One run of `drag_motion` as written. A move shifts the rectangle by
   * `dx` through its id and again through `text_tag`, which the rectangle
   * carries too, so by `2 * dx`, and records the pointer. A resize sets the
   * edge as `Step` does, but `update_text_pos_and_content` then raises: the
   * first holder of `text_tag` is the rectangle, which has no `text`
   * option. So a resize never records the pointer.
   */
  function MotionRunAsWritten(p: Params, s: DragState, pointerX: real): (r: DragState)
    ensures s.Idle? ==> r == s
    ensures s.Dragging? ==>
              && r.Dragging?
              && r == s.(bar := r.bar, lastX := r.lastX)
              && r.bar.y1 == s.bar.y1 && r.bar.y2 == s.bar.y2
    ensures s.Dragging? && s.mode == Move ==>
              var dx := pointerX - s.lastX;
              && r.bar.x1 == s.bar.x1 + 2.0 * dx && r.bar.x2 == s.bar.x2 + 2.0 * dx
              && r.lastX == pointerX
    ensures s.Dragging? && s.mode != Move ==> r.bar == Step(p, s, pointerX).bar && r.lastX == s.lastX
  {
    match s
    case Idle => s
    case Dragging(mode, _, _, _, bar, lastX) =>
      var dx := pointerX - lastX;
      match mode
      case Move => s.(bar := bar.(x1 := bar.x1 + dx + dx, x2 := bar.x2 + dx + dx), lastX := pointerX)
      case ResizeLeft => s.(bar := bar.(x1 := Min(Max(p.startX, bar.x1 + dx), bar.x2 - p.hourWidth)))
      case ResizeRight => s.(bar := bar.(x2 := Max(Min(p.endX, bar.x2 + dx), bar.x1 + p.hourWidth)))
  }

  /**
   * One motion event as written. The rectangle carries two bound tags
   * (`bar_tag`, then `text_tag`), so Tk runs `drag_motion` twice. A move
   * travels as `Step` would for a pointer displacement twice as long. A
   * resize keeps the pointer of the press, and applies `Step`'s resize twice
   * with the whole displacement since the press.
   */
  function StepAsWritten(p: Params, s: DragState, pointerX: real): (r: DragState)
    ensures s.Idle? ==> r == s
    ensures s.Dragging? ==>
              && r.Dragging?
              && r == s.(bar := r.bar, lastX := r.lastX)
              && r.bar.y1 == s.bar.y1 && r.bar.y2 == s.bar.y2
    ensures s.Dragging? && s.mode == Move ==>
              && r.bar == Step(p, s, 2.0 * pointerX - s.lastX).bar
              && r.lastX == pointerX
    ensures s.Dragging? && s.mode != Move ==>
              && r.bar == Step(p, s.(bar := Step(p, s, pointerX).bar), pointerX).bar
              && r.lastX == s.lastX
    ensures s.Dragging? && s.mode == ResizeLeft ==>
              r.bar.x2 == s.bar.x2 && r.bar.x2 - r.bar.x1 >= p.hourWidth
    ensures s.Dragging? && s.mode == ResizeRight ==>
              r.bar.x1 == s.bar.x1 && r.bar.x2 - r.bar.x1 >= p.hourWidth
  {
    MotionRunAsWritten(p, MotionRunAsWritten(p, s, pointerX), pointerX)
  }

  /** The motion events of one drag, as written. */
  function StepsAsWritten(p: Params, s: DragState, xs: seq<real>): (r: DragState)
    ensures s.Idle? ==> r == s
    ensures s.Dragging? ==> r.Dragging? && r.mode == s.mode && r.original == s.original
    ensures s.Dragging? && s.mode != Move ==> r.lastX == s.lastX
    decreases |xs|
  {
    if |xs| == 0 then s else StepsAsWritten(p, StepAsWritten(p, s, xs[0]), xs[1..])
  }

  /**
   * As written, a moved bar travels twice the pointer's distance: after any
   * motion events its left edge is twice the pointer's displacement since
   * the press away from where it started, with its width unchanged.
   */
  lemma {:induction false} MoveTravelsTwice(p: Params, s: DragState, xs: seq<real>)
    requires s.Dragging? && s.mode == Move
    requires |xs| > 0
    ensures var r := StepsAsWritten(p, s, xs);
            && r.bar.x1 == s.bar.x1 + 2.0 * (xs[|xs| - 1] - s.lastX)
            && r.bar.x2 - r.bar.x1 == s.bar.x2 - s.bar.x1
            && r.lastX == xs[|xs| - 1]
    decreases |xs|
  {
    var s' := StepAsWritten(p, s, xs[0]);
    if |xs| > 1 {
      MoveTravelsTwice(p, s', xs[1..]);
      assert xs[1..][|xs[1..]| - 1] == xs[|xs| - 1];
    }
  }

  /** The press near the right edge of member `a`'s bar `(8, 10)` (340-pixel canvas) starts a right resize. */
  lemma ResizeGrabs(y1: real, y2: real)
    ensures StartDragAsWritten(Idle, ItemTags(Target("a", 8, 10, 0)), [160.0, y1, 180.0, y2], 178.0)
              == Dragging(ResizeRight, "a", (8, 10), 0, Bar(160.0, y1, 180.0, y2), 178.0)
    ensures StartDrag(Idle, ItemTags(Target("a", 8, 10, 0)), [160.0, y1, 180.0, y2], 178.0)
              == Dragging(ResizeRight, "a", (8, 10), 0, Bar(160.0, y1, 180.0, y2), 178.0)
  {
    var t := Target("a", 8, 10, 0);
    assert Sep !in t.member;
    DecodeAsWrittenRoundTrip(t);
    DecodeRoundTrip(t);
  }

  /**
   * As written, that resize overshoots: pointer events at 198 and then 199
   * pixels push the right edge to 262 pixels, and the release asks the
   * store for `(8, 18)`.
   */
  lemma ResizeAsWrittenOvershoots(y1: real, y2: real)
    ensures var p := ChartParams(340);
            var s := StartDragAsWritten(Idle, ItemTags(Target("a", 8, 10, 0)), [160.0, y1, 180.0, y2], 178.0);
            EndDragAsWritten(p, StepsAsWritten(p, s, [198.0, 199.0])).1
              == Some(UpdateCall("a", (8, 10), 0, (8, 18)))
  {
    var p := ChartParams(340);
    assert p.hourWidth == 10.0 && p.endX == 320.0;
    ResizeGrabs(y1, y2);
    var s := Dragging(ResizeRight, "a", (8, 10), 0, Bar(160.0, y1, 180.0, y2), 178.0);
    var s1 := StepAsWritten(p, s, 198.0);
    assert s1.bar.x2 == 220.0 && s1.lastX == 178.0;
    var s2 := StepAsWritten(p, s1, 199.0);
    assert s2.bar.x2 == 262.0 && s2.bar.x1 == 160.0;
    assert [198.0, 199.0][1..] == [199.0];
    assert StepsAsWritten(p, s, [198.0, 199.0]) == s2;
    assert PixelToHour(160.0, p.startX, p.hourWidth) == 8.0;
    assert PixelToHour(262.0, p.startX, p.hourWidth) == 18.2;
    RoundInt(8);
    RoundUnique(18.2, 18);
  }

  /** With the pointer recorded and one run per event, the same resize asks for `(8, 12)`. */
  lemma ResizeFollowsPointer(y1: real, y2: real)
    ensures var p := ChartParams(340);
            var s := StartDrag(Idle, ItemTags(Target("a", 8, 10, 0)), [160.0, y1, 180.0, y2], 178.0);
            EndDrag(p, Steps(p, s, [198.0, 199.0])).1 == Some(UpdateCall("a", (8, 10), 0, (8, 12)))
  {
    var p := ChartParams(340);
    assert p.hourWidth == 10.0 && p.endX == 320.0;
    ResizeGrabs(y1, y2);
    var s := Dragging(ResizeRight, "a", (8, 10), 0, Bar(160.0, y1, 180.0, y2), 178.0);
    var s1 := Step(p, s, 198.0);
    assert s1.bar.x2 == 200.0 && s1.lastX == 198.0;
    var s2 := Step(p, s1, 199.0);
    assert s2.bar.x2 == 201.0 && s2.bar.x1 == 160.0;
    assert [198.0, 199.0][1..] == [199.0];
    assert Steps(p, s, [198.0, 199.0]) == s2;
    assert PixelToHour(160.0, p.startX, p.hourWidth) == 8.0;
    assert PixelToHour(201.0, p.startX, p.hourWidth) == 12.1;
    RoundInt(8);
    RoundUnique(12.1, 12);
    CommitAgreesWhenValid(ResizeRight, 8.0, 12.1);
  }

  // ---------------------------------------------------------------------
  // end_drag
  // ---------------------------------------------------------------------

  /**
   * The committed hours of `end_drag` as the source computes them: both
   * ends rounded; start raised to 0 and end lowered to 24; a collapsed
   * range repaired to `(end - 1, end)` in resize_left and `(start, start + 1)`
   * otherwise; then the same two clamps once more. The start is never
   * lowered and the end never raised, so a bar moved past 24 commits with
   * its start at or after its end.
   */
  function CommitAsWritten(mode: Mode, startHour: real, endHour: real): (r: Slot)
    ensures r.0 >= 0 && r.1 <= DayHours
    ensures var s := if Round(startHour) < 0 then 0 else Round(startHour);
            var e := if Round(endHour) > DayHours then DayHours else Round(endHour);
            && (s < e ==> r == (s, e))
            && (s >= e && mode == ResizeLeft ==> r == (if e - 1 < 0 then 0 else e - 1, e))
            && (s >= e && mode != ResizeLeft ==> r == (s, if s + 1 > DayHours then DayHours else s + 1))
  {
    var s := Round(startHour);
    var e := Round(endHour);
    var s' := if s < 0 then 0 else s;
    var e' := if e > DayHours then DayHours else e;
    if s' >= e' then
      var (s2, e2) := if mode == ResizeLeft then (e' - 1, e') else (s', s' + 1);
      (if s2 < 0 then 0 else s2, if e2 > DayHours then DayHours else e2)
    else (s', e')
  }

  /** A bar moved wholly past 24 hours commits as `(40, 24)`, an inverted range. */
  lemma CommitAsWrittenInverts()
    ensures CommitAsWritten(Move, 40.0, 44.0) == (40, 24)
    ensures CommitAsWritten(Move, 24.0, 28.0) == (24, 24)
  {
    RoundInt(40);
    RoundInt(44);
    RoundInt(24);
    RoundInt(28);
  }

  /**
   * The same kind of drag from a real chart: on a 340-pixel canvas (10
   * pixels an hour), the schedule `(20, 24)` dragged 100 pixels to the
   * right travels 200 pixels as written, to hours `(40, 44)`, and commits
   * as `(40, 24)`.
   */
  lemma MoveOffChartCommitsInverted(y1: real, y2: real)
    ensures var p := ChartParams(340);
            var s := Dragging(Move, "a", (20, 24), 0, Bar(280.0, y1, 320.0, y2), 300.0);
            var r := StepAsWritten(p, s, 400.0);
            CommitAsWritten(Move, PixelToHour(r.bar.x1, p.startX, p.hourWidth),
                            PixelToHour(r.bar.x2, p.startX, p.hourWidth)) == (40, 24)
  {
    var p := ChartParams(340);
    assert p.hourWidth == 10.0;
    assert PixelToHour(480.0, p.startX, p.hourWidth) == 40.0;
    assert PixelToHour(520.0, p.startX, p.hourWidth) == 44.0;
    CommitAsWrittenInverts();
  }

  /**
   * The commit as evidently intended: the start is also kept at or before
   * 23 and the end at or after 1 before the repair, so the committed range
   * always lies inside the day and is at least an hour long.
   */
  function Commit(mode: Mode, startHour: real, endHour: real): (r: Slot)
    ensures 0 <= r.0 < r.1 <= DayHours
  {
    var s := Round(startHour);
    var e := Round(endHour);
    var s' := if s < 0 then 0 else if s > DayHours - 1 then DayHours - 1 else s;
    var e' := if e > DayHours then DayHours else if e < 1 then 1 else e;
    if s' >= e' then
      if mode == ResizeLeft then (e' - 1, e') else (s', s' + 1)
    else (s', e')
  }

  /** Wherever the source's commit already gives a valid range, the corrected one gives the same. */
  lemma CommitAgreesWhenValid(mode: Mode, startHour: real, endHour: real)
    ensures var w := CommitAsWritten(mode, startHour, endHour);
            0 <= w.0 < w.1 <= DayHours ==> Commit(mode, startHour, endHour) == w
  {
  }

  /** Whole hours already inside the day commit to themselves, in every mode. */
  lemma CommitKeepsValidHours(mode: Mode, a: int, b: int)
    requires 0 <= a < b <= DayHours
    ensures Commit(mode, a as real, b as real) == (a, b)
    ensures CommitAsWritten(mode, a as real, b as real) == (a, b)
  {
    RoundInt(a);
    RoundInt(b);
  }

  /**
   * `end_drag`: with no drag in progress nothing happens. Otherwise the
   * bar's edges are turned into hours and committed; when the result equals
   * the original schedule no call is made, else one `update_schedule` call
   * with the decoded schedule and index. The drag always ends.
   */
  function EndDrag(p: Params, s: DragState): (r: (DragState, Option<UpdateCall>))
    requires p.hourWidth > 0.0
    ensures r.0 == Idle
    ensures s.Idle? ==> r.1.None?
    ensures s.Dragging? ==>
              var c := Commit(s.mode, PixelToHour(s.bar.x1, p.startX, p.hourWidth), PixelToHour(s.bar.x2, p.startX, p.hourWidth));
              && (r.1.None? <==> c == s.original)
              && (r.1.Some? ==> r.1.value == UpdateCall(s.member, s.original, s.index, c))
    ensures r.1.Some? ==> 0 <= r.1.value.newSlot.0 < r.1.value.newSlot.1 <= DayHours
  {
    match s
    case Idle => (Idle, None)
    case Dragging(mode, member, original, index, bar, _) =>
      var committed := Commit(mode, PixelToHour(bar.x1, p.startX, p.hourWidth), PixelToHour(bar.x2, p.startX, p.hourWidth));
      if committed == original then (Idle, None)
      else (Idle, Some(UpdateCall(member, original, index, committed)))
  }

  /**
   * A press and release without motion on a bar drawn for a valid schedule
   * makes no store call: the bar's edges read back as the schedule itself.
   */
  lemma ClickWithoutMotionIsNoOp(p: Params, t: Target, y1: real, y2: real, pointerX: real)
    requires p.hourWidth > 0.0
    requires 0 <= t.start < t.end <= DayHours
    ensures var coords := [HourToPixel(t.start as real, p.startX, p.hourWidth), y1,
                           HourToPixel(t.end as real, p.startX, p.hourWidth), y2];
            var s := StartDrag(Idle, ItemTags(t), coords, pointerX);
            s.Dragging? && EndDrag(p, s).1.None?
  {
    DecodeRoundTrip(t);
    AxisInverse(0.0, t.start as real, p.startX, p.hourWidth);
    AxisInverse(0.0, t.end as real, p.startX, p.hourWidth);
    var coords := [HourToPixel(t.start as real, p.startX, p.hourWidth), y1,
                   HourToPixel(t.end as real, p.startX, p.hourWidth), y2];
    var s := StartDrag(Idle, ItemTags(t), coords, pointerX);
    CommitKeepsValidHours(s.mode, t.start, t.end);
  }

  /**
   * The release as a whole: the drag ends, and the store is written at most
   * once; when the committed hours equal the original it is not touched.
   */
  lemma ReleaseWritesAtMostOnce(p: Params, s: DragState, st: DataManager.Store)
    requires p.hourWidth > 0.0
    ensures var (s', call) := EndDrag(p, s);
            var st' := Release(st, call);
            && s' == Idle
            && st.saves <= st'.saves <= st.saves + 1
            && (call.None? ==> st' == st)
            && (s.Idle? ==> st' == st)
  {
  }

  // ---------------------------------------------------------------------
  // The press, the context menu and the release as written
  // ---------------------------------------------------------------------

  /** `show_context_menu` as written: the first bar tag, read back by `DecodeAsWritten`. */
  function ContextTargetAsWritten(tags: seq<string>): (r: Option<Target>)
    ensures FindBarTag(tags).Some? ==> r == DecodeAsWritten(FindBarTag(tags).value)
    ensures FindBarTag(tags).None? ==> r.None?
  {
    match FindBarTag(tags)
    case None => None
    case Some(tag) => DecodeAsWritten(tag)
  }

  /** `start_drag` as written: `StartDrag` with the tag read by `DecodeAsWritten`. */
  function StartDragAsWritten(s: DragState, tags: seq<string>, coords: seq<real>, pointerX: real): (r: DragState)
    ensures FindBarTag(tags).None? ==> r == s
    ensures FindBarTag(tags).Some? && (DecodeAsWritten(FindBarTag(tags).value).None? || |coords| != 4) ==> r == Idle
    ensures FindBarTag(tags).Some? && DecodeAsWritten(FindBarTag(tags).value).Some? && |coords| == 4 ==>
              var t := DecodeAsWritten(FindBarTag(tags).value).value;
              && r.Dragging?
              && r.member == t.member && r.original == (t.start, t.end) && r.index == t.index
              && r.bar == Bar(coords[0], coords[1], coords[2], coords[3])
              && r.mode == HitTest(pointerX, coords[0], coords[2])
              && r.lastX == pointerX
  {
    match FindBarTag(tags)
    case None => s
    case Some(tag) =>
      match DecodeAsWritten(tag)
      case None => Idle
      case Some(t) =>
        if |coords| != 4 then Idle
        else
          Dragging(HitTest(pointerX, coords[0], coords[2]), t.member, (t.start, t.end), t.index,
                   Bar(coords[0], coords[1], coords[2], coords[3]), pointerX)
  }

  /** `end_drag` as written: `EndDrag` with the hours committed by `CommitAsWritten`. */
  function EndDragAsWritten(p: Params, s: DragState): (r: (DragState, Option<UpdateCall>))
    requires p.hourWidth > 0.0
    ensures r.0 == Idle
    ensures s.Idle? ==> r.1.None?
    ensures s.Dragging? ==>
              var c := CommitAsWritten(s.mode, PixelToHour(s.bar.x1, p.startX, p.hourWidth),
                                       PixelToHour(s.bar.x2, p.startX, p.hourWidth));
              && (r.1.None? <==> c == s.original)
              && (r.1.Some? ==> r.1.value == UpdateCall(s.member, s.original, s.index, c))
  {
    match s
    case Idle => (Idle, None)
    case Dragging(mode, member, original, index, bar, _) =>
      var committed := CommitAsWritten(mode, PixelToHour(bar.x1, p.startX, p.hourWidth),
                                       PixelToHour(bar.x2, p.startX, p.hourWidth));
      if committed == original then (Idle, None)
      else (Idle, Some(UpdateCall(member, original, index, committed)))
  }

  /** The context menu as written names a drawn bar's schedule when the member name has no `_`. */
  lemma ContextTargetAsWrittenOfDrawnBar(t: Target, others: seq<string>)
    requires Sep !in t.member
    requires forall i :: 0 <= i < |others| ==> !IsBarTag(others[i])
    ensures ContextTargetAsWritten(others + [Encode(t)]) == Some(t)
    ensures ContextTargetAsWritten(ItemTags(t)) == Some(t)
  {
    DecodeAsWrittenRoundTrip(t);
    var tags := others + [Encode(t)];
    assert forall i :: 0 <= i < |others| ==> tags[i] == others[i];
    assert tags[|others|] == Encode(t);
  }

  /** Right-clicking the bar of member `a_1`, schedule `(9, 17)`, offers to edit member `a`'s `(1, 9)`. */
  lemma ContextTargetAsWrittenMisreads()
    ensures ContextTargetAsWritten(ItemTags(Target("a_1", 9, 17, 0))) == Some(Target("a", 1, 9, 17))
  {
    DecodeAsWrittenMisreadsName();
  }

  /**
   * As written, a press and release without motion makes no store call on
   * a bar drawn for a valid schedule whose member name has no `_`.
   */
  lemma ClickWithoutMotionAsWritten(p: Params, t: Target, y1: real, y2: real, pointerX: real)
    requires p.hourWidth > 0.0
    requires Sep !in t.member
    requires 0 <= t.start < t.end <= DayHours
    ensures var coords := [HourToPixel(t.start as real, p.startX, p.hourWidth), y1,
                           HourToPixel(t.end as real, p.startX, p.hourWidth), y2];
            var s := StartDragAsWritten(Idle, ItemTags(t), coords, pointerX);
            s.Dragging? && EndDragAsWritten(p, s).1.None?
  {
    DecodeAsWrittenRoundTrip(t);
    AxisInverse(0.0, t.start as real, p.startX, p.hourWidth);
    AxisInverse(0.0, t.end as real, p.startX, p.hourWidth);
    var coords := [HourToPixel(t.start as real, p.startX, p.hourWidth), y1,
                   HourToPixel(t.end as real, p.startX, p.hourWidth), y2];
    var s := StartDragAsWritten(Idle, ItemTags(t), coords, pointerX);
    CommitKeepsValidHours(s.mode, t.start, t.end);
  }

  /**
   * As written, merely clicking the bar of member `a_1`, schedule `(9, 17)`
   * at index 0 (340-pixel canvas) asks the store to move member `a`'s
   * schedule `(1, 9)` at index 17 to `(9, 17)`.
   */
  lemma ClickAsWrittenUpdatesWrongMember(y1: real, y2: real)
    ensures var p := ChartParams(340);
            var s := StartDragAsWritten(Idle, ItemTags(Target("a_1", 9, 17, 0)), [170.0, y1, 250.0, y2], 210.0);
            EndDragAsWritten(p, s).1 == Some(UpdateCall("a", (1, 9), 17, (9, 17)))
  {
    var p := ChartParams(340);
    assert p.hourWidth == 10.0;
    DecodeAsWrittenMisreadsName();
    assert PixelToHour(170.0, p.startX, p.hourWidth) == 9.0;
    assert PixelToHour(250.0, p.startX, p.hourWidth) == 17.0;
    CommitKeepsValidHours(Move, 9, 17);
  }

  /**
   * As written: on a 340-pixel canvas, dragging the bar of schedule
   * `(20, 24)` 100 pixels to the right asks the store for `(40, 24)`.
   */
  lemma MoveOffChartCallsInverted(y1: real, y2: real)
    ensures var p := ChartParams(340);
            var s := StartDragAsWritten(Idle, ItemTags(Target("a", 20, 24, 0)), [280.0, y1, 320.0, y2], 300.0);
            EndDragAsWritten(p, StepAsWritten(p, s, 400.0)).1 == Some(UpdateCall("a", (20, 24), 0, (40, 24)))
  {
    MoveOffChartGrabs(y1, y2);
    MoveOffChartCommitsInverted(y1, y2);
  }

  /** The press on the middle of that bar starts a move of schedule 0, `(20, 24)`, of member `"a"`. */
  lemma MoveOffChartGrabs(y1: real, y2: real)
    ensures StartDragAsWritten(Idle, ItemTags(Target("a", 20, 24, 0)), [280.0, y1, 320.0, y2], 300.0)
              == Dragging(Move, "a", (20, 24), 0, Bar(280.0, y1, 320.0, y2), 300.0)
  {
    var t := Target("a", 20, 24, 0);
    assert Sep !in t.member;
    DecodeAsWrittenRoundTrip(t);
  }

  /** The store accepts that call: the member's only schedule `(20, 24)` becomes `(40, 24)`. */
  lemma StoreAcceptsInverted(st: DataManager.Store)
    requires "a" in st.members && st.members["a"].schedules == [(20, 24)]
    ensures var r := DataManager.UpdateSchedule(st, "a", (20, 24), 0, (40, 24));
            r.outcome == DataManager.Done && DataManager.SchedulesOf(r.store, "a") == [(40, 24)]
  {
    var r := DataManager.UpdateSchedule(st, "a", (20, 24), 0, (40, 24));
    var after := DataManager.SchedulesOf(r.store, "a");
    assert multiset(after) == multiset{(40, 24)};
    assert after[0] in multiset(after);
  }

  /** End to end, as written: that drag leaves the store holding the inverted range `(40, 24)`. */
  lemma MoveOffChartStoresInverted(st: DataManager.Store, y1: real, y2: real)
    requires "a" in st.members && st.members["a"].schedules == [(20, 24)]
    ensures var p := ChartParams(340);
            var s := StartDragAsWritten(Idle, ItemTags(Target("a", 20, 24, 0)), [280.0, y1, 320.0, y2], 300.0);
            DataManager.SchedulesOf(Release(st, EndDragAsWritten(p, StepAsWritten(p, s, 400.0)).1), "a") == [(40, 24)]
  {
    MoveOffChartCallsInverted(y1, y2);
    StoreAcceptsInverted(st);
  }
}
