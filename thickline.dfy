/** Thick strokes: a stroke of a given thickness is faked by drawing
    `2 * (thickness / 2) + 1` parallel unit strokes at offsets
    `-off, ..., off` from the centre line, `off = thickness / 2`. */
module ThickLine {
  import opened Gfx

  /** The centre line of a thick stroke, as the three helpers take it. */
  datatype Stroke =
    | HStroke(x1: int, x2: int, y: int)             // drawThickH: offsets move y
    | VStroke(x: int, y1: int, y2: int)             // drawThickV: offsets move x
    | DStroke(x1: int, y1: int, x2: int, y2: int)   // drawThickDiag: offsets move both x ends

  /** The unit stroke drawn at offset `k` from the centre line. */
  function StrokeAt(s: Stroke, k: int): Cmd {
    match s
    case HStroke(x1, x2, y) => HLine(x1, y + k, x2 - x1)
    case VStroke(x, y1, y2) => VLine(x + k, y1, y2 - y1)
    case DStroke(x1, y1, x2, y2) => Line(x1 + k, y1, x2 + k, y2)
  }

  /** The unit strokes for the offsets `lo, lo+1, ..., hi`, in that order. */
  function Strokes(s: Stroke, lo: int, hi: int): seq<Cmd>
    decreases hi - lo
  {
    if hi < lo then [] else Strokes(s, lo, hi - 1) + [StrokeAt(s, hi)]
  }

  /** What one of the helpers emits for `thickness`; the half-width
      `thickness / 2` is of a non-negative value, so C++'s truncating division
      and Dafny's agree. */
  function Thick(s: Stroke, thickness: nat): seq<Cmd> {
    var off: int := thickness / 2;
    Strokes(s, -off, off)
  }

  lemma {:induction false} StrokesShape(s: Stroke, lo: int, hi: int)
    ensures |Strokes(s, lo, hi)| == if hi < lo then 0 else hi - lo + 1
    ensures forall i :: 0 <= i < |Strokes(s, lo, hi)| ==> Strokes(s, lo, hi)[i] == StrokeAt(s, lo + i)
    decreases hi - lo
  {
    if hi >= lo {
      StrokesShape(s, lo, hi - 1);
    }
  }

  /** A thick stroke is exactly `2 * off + 1` unit strokes, the `i`-th one at
      offset `i - off`: the offsets run from `-off` to `off` in increasing order. */
  lemma ThickShape(s: Stroke, thickness: nat)
    ensures |Thick(s, thickness)| == 2 * (thickness / 2) + 1
    ensures forall i :: 0 <= i < |Thick(s, thickness)| ==>
              Thick(s, thickness)[i] == StrokeAt(s, i - thickness / 2)
  {
    var off: int := thickness / 2;
    StrokesShape(s, -off, off);
  }

  /** Thickness 0 or 1 is the single primitive call on the centre line. */
  lemma ThinIsPrimitive(s: Stroke, thickness: nat)
    requires thickness <= 1
    ensures Thick(s, thickness) == [StrokeAt(s, 0)]
  {
    ThickShape(s, thickness);
  }

  /** Thickness 2 (the default) is three strokes, at offsets -1, 0 and 1. */
  lemma DefaultIsThree(s: Stroke)
    ensures Thick(s, 2) == [StrokeAt(s, -1), StrokeAt(s, 0), StrokeAt(s, 1)]
  {
    ThickShape(s, 2);
  }

  /** `drawThickH` keeps `x1` and the length `x2 - x1` and moves only y,
      within `[y - off, y + off]`. */
  lemma ThickHMovesOnlyY(x1: int, x2: int, y: int, thickness: nat)
    ensures forall c :: c in Thick(HStroke(x1, x2, y), thickness) ==>
              c.HLine? && c.hx == x1 && c.w == x2 - x1 &&
              y - thickness / 2 <= c.hy <= y + thickness / 2
  {
    ThickShape(HStroke(x1, x2, y), thickness);
  }

  /** `drawThickV` keeps `y1` and the length `y2 - y1` and moves only x,
      within `[x - off, x + off]`. */
  lemma ThickVMovesOnlyX(x: int, y1: int, y2: int, thickness: nat)
    ensures forall c :: c in Thick(VStroke(x, y1, y2), thickness) ==>
              c.VLine? && c.vy == y1 && c.h == y2 - y1 &&
              x - thickness / 2 <= c.vx <= x + thickness / 2
  {
    ThickShape(VStroke(x, y1, y2), thickness);
  }

  /** `drawThickDiag` shifts both x ends by the same `k` in `[-off, off]` and
      leaves `y1` and `y2` alone. */
  lemma ThickDiagShiftsX(x1: int, y1: int, x2: int, y2: int, thickness: nat)
    ensures forall c :: c in Thick(DStroke(x1, y1, x2, y2), thickness) ==>
              c.Line? && c.y1 == y1 && c.y2 == y2 && c.x2 - c.x1 == x2 - x1 &&
              x1 - thickness / 2 <= c.x1 <= x1 + thickness / 2
  {
    ThickShape(DStroke(x1, y1, x2, y2), thickness);
  }

  /** What the C++ types can hold for one stroke: the `uint8_t` thickness and,
      for every offset, the `int16_t` coordinates and length handed to the
      canvas. */
  predicate StrokeArgs(s: Stroke, thickness: int) {
    0 <= thickness <= 255 &&
    var off := thickness / 2;
    match s
    case HStroke(x1, x2, y) =>
      IsI16(x1) && IsI16(x2) && IsI16(y - off) && IsI16(y + off) && IsI16(x2 - x1)
    case VStroke(x, y1, y2) =>
      IsI16(x - off) && IsI16(x + off) && IsI16(y1) && IsI16(y2) && IsI16(y2 - y1)
    case DStroke(x1, y1, x2, y2) =>
      IsI16(x1 - off) && IsI16(x1 + off) && IsI16(x2 - off) && IsI16(x2 + off) &&
      IsI16(y1) && IsI16(y2)
  }

  /** drawThickH (with the loop counter widened; see `AsWrittenCounter`) */
  method DrawThickH(d: Canvas, x1: int, x2: int, y: int, thickness: nat := 2)
    requires StrokeArgs(HStroke(x1, x2, y), thickness)
    modifies d
    ensures d.trace == old(d.trace) + Thick(HStroke(x1, x2, y), thickness)
  {
    var off := thickness / 2;
    var dy := -off;
    while dy <= off
      invariant -off <= dy <= off + 1
      invariant d.trace == old(d.trace) + Strokes(HStroke(x1, x2, y), -off, dy - 1)
    {
      d.DrawFastHLine(x1, y + dy, x2 - x1);
      dy := dy + 1;
    }
  }

  /** drawThickV (with the loop counter widened; see `AsWrittenCounter`) */
  method DrawThickV(d: Canvas, x: int, y1: int, y2: int, thickness: nat := 2)
    requires StrokeArgs(VStroke(x, y1, y2), thickness)
    modifies d
    ensures d.trace == old(d.trace) + Thick(VStroke(x, y1, y2), thickness)
  {
    var off := thickness / 2;
    var dx := -off;
    while dx <= off
      invariant -off <= dx <= off + 1
      invariant d.trace == old(d.trace) + Strokes(VStroke(x, y1, y2), -off, dx - 1)
    {
      d.DrawFastVLine(x + dx, y1, y2 - y1);
      dx := dx + 1;
    }
  }

  /** drawThickDiag (with the loop counter widened; see `AsWrittenCounter`) */
  method DrawThickDiag(d: Canvas, x1: int, y1: int, x2: int, y2: int, thickness: nat := 2)
    requires StrokeArgs(DStroke(x1, y1, x2, y2), thickness)
    modifies d
    ensures d.trace == old(d.trace) + Thick(DStroke(x1, y1, x2, y2), thickness)
  {
    var off := thickness / 2;
    var k := -off;
    while k <= off
      invariant -off <= k <= off + 1
      invariant d.trace == old(d.trace) + Strokes(DStroke(x1, y1, x2, y2), -off, k - 1)
    {
      d.DrawLine(x1 + k, y1, x2 + k, y2);
      k := k + 1;
    }
  }

  // ---------------------------------------------------------------------------
  // The loop counter as written: an `int8_t`
  // ---------------------------------------------------------------------------

  /** Conversion of an `int` to `int8_t` (modular, as GCC does and C++20 requires). */
  function ToInt8(v: int): (r: int)
    ensures -128 <= r <= 127 && (r - v) % 256 == 0
  {
    (v + 128) % 256 - 128
  }

  /** The value of the `int8_t` counter `dy` (`dx`, `k`) after `n` executions
      of `++dy`, starting from `-off`. */
  function AsWrittenCounter(off: int, n: nat): (r: int)
    ensures -128 <= r <= 127
  {
    if n == 0 then ToInt8(-off) else ToInt8(AsWrittenCounter(off, n - 1) + 1)
  }

  /** For thickness 254 or 255, `off` is 127, every `int8_t` value satisfies
      the guard `dy <= off`, and the counter wraps from 127 to -128 after 254
      increments instead of leaving the loop: the helpers never return. */
  lemma AsWrittenNeverExits(thickness: int, n: nat)
    requires 254 <= thickness <= 255
    ensures ToInt8(thickness / 2) == 127
    ensures AsWrittenCounter(ToInt8(thickness / 2), n) <= ToInt8(thickness / 2)
  {
  }

  /** Until it passes 127, the `int8_t` counter agrees with the widened one:
      after `n` increments from `-off` it is `-off + n`. */
  lemma {:induction false} AsWrittenCounts(off: int, n: nat)
    requires 0 <= off <= 127 && -off + n <= 127
    ensures AsWrittenCounter(off, n) == -off + n
  {
    if n == 0 {
      ToInt8InRange(-off);
    } else {
      AsWrittenCounts(off, n - 1);
      ToInt8InRange(-off + n);
    }
  }

  /** A value `int8_t` can hold converts to itself. */
  lemma ToInt8InRange(v: int)
    requires -128 <= v <= 127
    ensures ToInt8(v) == v
  {
  }

  /** For every thickness up to 253 (`off <= 126`) the loop as written does
      what the widened loop does: the guard holds for the first `2 * off + 1`
      counter values `-off, ..., off` and fails on the next one, `off + 1`. */
  lemma AsWrittenAgrees(thickness: int, n: nat)
    requires 0 <= thickness <= 253 && n <= 2 * (thickness / 2) + 1
    ensures ToInt8(thickness / 2) == thickness / 2
    ensures AsWrittenCounter(thickness / 2, n) == -(thickness / 2) + n
    ensures AsWrittenCounter(thickness / 2, n) <= thickness / 2 <==> n < 2 * (thickness / 2) + 1
  {
    AsWrittenCounts(thickness / 2, n);
  }

  /** The wrap itself: 254 increments from -127 reach 127, the next one gives
      -128, which passes the guard again. */
  lemma AsWrittenWraps()
    ensures AsWrittenCounter(127, 254) == 127
    ensures AsWrittenCounter(127, 255) == -128 <= 127
  {
    AsWrittenCounts(127, 254);
  }
}
