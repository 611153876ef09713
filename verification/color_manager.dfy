/**
 * The colour allocator (`ColorManager`): a fixed palette of ten chart
 * colours handed out round-robin, and a reseeding step that points the
 * cursor at the first colour not yet in use.
 */
module ColorManager {
  import opened Wrappers

  /** The ten chart colours; `Name` gives the Tk colour string of each. */
  datatype Color =
    | Skyblue | Lightgreen | Salmon | Orchid | Gold
    | Lightcoral | Lightsteelblue | Palegreen | Sandybrown | Plum

  /** The colour string the source stores and hands to Tk. */
  function Name(c: Color): (s: string)
    ensures |s| > 0
    ensures forall i :: 0 <= i < |s| ==> 'a' <= s[i] <= 'z'
  {
    match c
    case Skyblue => "skyblue"
    case Lightgreen => "lightgreen"
    case Salmon => "salmon"
    case Orchid => "orchid"
    case Gold => "gold"
    case Lightcoral => "lightcoral"
    case Lightsteelblue => "lightsteelblue"
    case Palegreen => "palegreen"
    case Sandybrown => "sandybrown"
    case Plum => "plum"
  }

  /** `CHART_COLORS`, in allocation order. */
  const ChartColors: seq<Color> :=
    [Skyblue, Lightgreen, Salmon, Orchid, Gold, Lightcoral, Lightsteelblue, Palegreen, Sandybrown, Plum]

  /** Number of palette entries. */
  const PaletteSize: nat := 10

  /** A position in the palette. */
  type ColorIndex = i: int | 0 <= i < 10

  /** The allocator's only state: the position of the colour handed out next. */
  datatype Allocator = Allocator(index: ColorIndex)

  /** A freshly constructed allocator starts at the first colour. */
  const Initial: Allocator := Allocator(0)

  /** The palette has ten pairwise distinct entries. */
  lemma PaletteDistinct()
    ensures |ChartColors| == PaletteSize
    ensures forall i, j :: 0 <= i < j < |ChartColors| ==> ChartColors[i] != ChartColors[j]
  {
  }

  /** Every colour is in the palette. */
  lemma PaletteComplete()
    ensures forall c :: c in ChartColors
  {
    forall c ensures c in ChartColors {
      match c
      case Skyblue => assert ChartColors[0] == c;
      case Lightgreen => assert ChartColors[1] == c;
      case Salmon => assert ChartColors[2] == c;
      case Orchid => assert ChartColors[3] == c;
      case Gold => assert ChartColors[4] == c;
      case Lightcoral => assert ChartColors[5] == c;
      case Lightsteelblue => assert ChartColors[6] == c;
      case Palegreen => assert ChartColors[7] == c;
      case Sandybrown => assert ChartColors[8] == c;
      case Plum => assert ChartColors[9] == c;
    }
  }

  /** Reading back a colour's name gives the colour, so distinct colours have distinct names. */
  lemma NameRoundTrip()
    ensures forall c :: FromName(Name(c)) == Some(c)
    ensures forall c, d :: Name(c) == Name(d) ==> c == d
  {
    forall c ensures FromName(Name(c)) == Some(c) {
      match c
      case Skyblue =>
      case Lightgreen =>
      case Salmon =>
      case Orchid =>
      case Gold =>
      case Lightcoral =>
      case Lightsteelblue =>
      case Palegreen =>
      case Sandybrown =>
      case Plum =>
    }
    forall c, d | Name(c) == Name(d) ensures c == d {
      assert FromName(Name(c)) == FromName(Name(d));
    }
  }

  /**
   * `color in CHART_COLORS` for a stored colour string: the palette colour
   * of that name, if there is one.
   */
  function FromName(s: string): (r: Option<Color>)
    ensures r.Some? ==> Name(r.value) == s
    ensures r.None? ==> forall c :: Name(c) != s
  {
    if s == "skyblue" then Some(Skyblue)
    else if s == "lightgreen" then Some(Lightgreen)
    else if s == "salmon" then Some(Salmon)
    else if s == "orchid" then Some(Orchid)
    else if s == "gold" then Some(Gold)
    else if s == "lightcoral" then Some(Lightcoral)
    else if s == "lightsteelblue" then Some(Lightsteelblue)
    else if s == "palegreen" then Some(Palegreen)
    else if s == "sandybrown" then Some(Sandybrown)
    else if s == "plum" then Some(Plum)
    else None
  }

  /**
   * `get_next_color`: the colour under the cursor, and the allocator with
   * the cursor advanced cyclically.
   */
  function NextColor(a: Allocator): (r: (Color, Allocator))
    ensures r.0 == ChartColors[a.index]
    ensures a.index < PaletteSize - 1 ==> r.1.index == a.index + 1
    ensures a.index == PaletteSize - 1 ==> r.1.index == 0
  {
    (ChartColors[a.index], Allocator((a.index + 1) % PaletteSize))
  }

  /** The colours returned by `n` consecutive calls, and the final allocator. */
  function NextColors(a: Allocator, n: nat): (r: (seq<Color>, Allocator))
    ensures |r.0| == n
    ensures n > 0 ==> r.0[0] == ChartColors[a.index]
    decreases n
  {
    if n == 0 then ([], a)
    else
      var tail := NextColors(NextColor(a).1, n - 1);
      ([NextColor(a).0] + tail.0, tail.1)
  }

  /** Advancing the cursor once and then k places is advancing it k + 1 places. */
  lemma AdvanceShift(i: ColorIndex, k: nat)
    ensures ((i + 1) % PaletteSize + k) % PaletteSize == (i + 1 + k) % PaletteSize
  {
    if i == PaletteSize - 1 {
      var q, m := k / PaletteSize, k % PaletteSize;
      assert k == q * PaletteSize + m;
      assert i + 1 + k == (q + 1) * PaletteSize + m;
    } else {
      assert (i + 1) % PaletteSize == i + 1;
    }
  }

  /** A cursor that has moved `f` places from the start moves to `f + 1` places on the next call. */
  lemma AdvanceCount(a: Allocator, f: nat)
    requires a.index == f % PaletteSize
    ensures NextColor(a).1.index == (f + 1) % PaletteSize
  {
    AdvanceShift(a.index, 0);
    assert f == (f / PaletteSize) * PaletteSize + a.index;
    assert f + 1 == (f / PaletteSize) * PaletteSize + (a.index + 1);
  }

  /** After n calls the cursor has moved n places, cyclically. */
  lemma {:induction false} NextColorsCursor(a: Allocator, n: nat)
    ensures NextColors(a, n).1.index == (a.index + n) % PaletteSize
    decreases n
  {
    if n > 0 {
      NextColorsCursor(NextColor(a).1, n - 1);
      AdvanceShift(a.index, n - 1);
    }
  }

  /** The k-th of n consecutive calls returns the colour under the cursor left by the first k calls. */
  lemma {:induction false} NextColorsAt(a: Allocator, n: nat, k: nat)
    requires k < n
    ensures NextColors(a, n).0[k] == ChartColors[NextColors(a, k).1.index]
    decreases k
  {
    if k > 0 {
      var a' := NextColor(a).1;
      assert NextColors(a, n).0[k] == NextColors(a', n - 1).0[k - 1];
      NextColorsAt(a', n - 1, k - 1);
    }
  }

  /** The k-th of n consecutive calls returns the palette entry k places after the cursor. */
  lemma NextColorsCycle(a: Allocator, n: nat)
    ensures NextColors(a, n).1.index == (a.index + n) % PaletteSize
    ensures forall k :: 0 <= k < n ==> NextColors(a, n).0[k] == ChartColors[(a.index + k) % PaletteSize]
  {
    NextColorsCursor(a, n);
    forall k | 0 <= k < n
      ensures NextColors(a, n).0[k] == ChartColors[(a.index + k) % PaletteSize]
    {
      NextColorsAt(a, n, k);
      NextColorsCursor(a, k);
    }
  }

  /**
   * From a fresh allocator, ten calls hand out the whole palette in order
   * (so ten distinct colours), and the eleventh call repeats the first.
   */
  lemma TenCallsThenRepeat(a: Allocator)
    requires a == Initial
    ensures forall k :: 0 <= k < PaletteSize ==> NextColors(a, PaletteSize).0[k] == ChartColors[k]
    ensures NextColors(a, PaletteSize).1 == a
    ensures forall i, j :: 0 <= i < j < PaletteSize ==>
              NextColors(a, PaletteSize).0[i] != NextColors(a, PaletteSize).0[j]
    ensures NextColors(a, PaletteSize + 1).0[PaletteSize] == ChartColors[0]
  {
    TenCallsInOrder(a);
    PaletteDistinct();
    NextColorsCursor(a, PaletteSize);
    NextColorsAt(a, PaletteSize + 1, PaletteSize);
  }

  /** From a fresh allocator, the k-th of ten calls returns the k-th palette colour. */
  lemma TenCallsInOrder(a: Allocator)
    requires a == Initial
    ensures forall k :: 0 <= k < PaletteSize ==> NextColors(a, PaletteSize).0[k] == ChartColors[k]
  {
    var ten := NextColors(a, PaletteSize).0;
    forall k | 0 <= k < PaletteSize ensures ten[k] == ChartColors[k] {
      NextColorsAt(a, PaletteSize, k);
      CursorNoWrap(a, k);
    }
  }

  /** While the cursor does not pass the last colour, n calls move it exactly n places. */
  lemma {:induction false} CursorNoWrap(a: Allocator, n: nat)
    requires a.index + n < PaletteSize
    ensures NextColors(a, n).1.index == a.index + n
    decreases n
  {
    if n > 0 {
      CursorNoWrap(NextColor(a).1, n - 1);
    }
  }

  /**
   * The scan of `set_current_color_index_based_on_used_colors` from
   * position `i`: the first position at or after `i` whose colour is not in
   * `used`, or `PaletteSize` when there is none.
   */
  function FirstUnused(used: set<Color>, i: nat): (k: nat)
    requires i <= PaletteSize
    ensures i <= k <= PaletteSize
    ensures forall j :: i <= j < k ==> ChartColors[j] in used
    ensures k < PaletteSize ==> ChartColors[k] !in used
    decreases PaletteSize - i
  {
    if i < PaletteSize && ChartColors[i] in used then FirstUnused(used, i + 1) else i
  }

  /**
   * `set_current_color_index_based_on_used_colors` on an allocator `prior`:
   * the cursor moves to the first palette colour not in `used`; when every
   * colour is used it goes back to the first one. The scan restarts from 0,
   * so the prior cursor plays no part.
   */
  function Reseed(prior: Allocator, used: set<Color>): (a: Allocator)
    ensures forall j :: 0 <= j < a.index ==> ChartColors[j] in used
    ensures (exists c :: c in ChartColors && c !in used) ==> ChartColors[a.index] !in used
    ensures (forall c :: c in ChartColors ==> c in used) ==> a.index == 0
  {
    var k := FirstUnused(used, 0);
    if k < PaletteSize then Allocator(k) else Allocator(0)
  }

  /**
   * The reseeded cursor depends only on the colours in use: any two prior
   * allocators reseed alike, and reseeding twice is reseeding once.
   */
  lemma ReseedIgnoresCursor(a: Allocator, b: Allocator, used: set<Color>)
    ensures Reseed(a, used) == Reseed(b, used)
    ensures Reseed(Reseed(a, used), used) == Reseed(a, used)
  {
  }

  /** Reseeding with only the third colour in use makes the next colour the first one. */
  lemma ReseedSkipsOnlyUsed()
    ensures NextColor(Reseed(Initial, {ChartColors[2]})).0 == ChartColors[0]
  {
    PaletteDistinct();
  }
}
