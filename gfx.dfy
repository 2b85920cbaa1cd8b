/** The drawing surface the icon code is written against (an Adafruit_GFX-like
    object).  It is represented only by the commands it receives, in order:
    rasterisation, clipping and the panel driver belong to the graphics library. */
module Gfx {

  const I16_MIN: int := -32768
  const I16_MAX: int := 32767

  /** The value fits a C++ `int16_t`, the coordinate type of the GFX API. */
  predicate IsI16(v: int) {
    I16_MIN <= v <= I16_MAX
  }

  /** One call of a canvas primitive.  The colour argument is always the
      build-time ink colour, so it is not recorded. */
  datatype Cmd =
    | Pixel(px: int, py: int)                                   // drawPixel
    | HLine(hx: int, hy: int, w: int)                           // drawFastHLine
    | VLine(vx: int, vy: int, h: int)                           // drawFastVLine
    | Line(x1: int, y1: int, x2: int, y2: int)                  // drawLine
    | Circle(cx: int, cy: int, r: int)                          // drawCircle
    | RoundRect(rx: int, ry: int, rw: int, rh: int, rr: int)    // drawRoundRect

  /** An append-only record of the primitive calls a canvas has received. */
  class Canvas {
    var trace: seq<Cmd>

    constructor ()
      ensures trace == []
    {
      trace := [];
    }

    method DrawPixel(x: int, y: int)
      modifies this
      ensures trace == old(trace) + [Pixel(x, y)]
    {
      trace := trace + [Pixel(x, y)];
    }

    method DrawFastHLine(x: int, y: int, w: int)
      modifies this
      ensures trace == old(trace) + [HLine(x, y, w)]
    {
      trace := trace + [HLine(x, y, w)];
    }

    method DrawFastVLine(x: int, y: int, h: int)
      modifies this
      ensures trace == old(trace) + [VLine(x, y, h)]
    {
      trace := trace + [VLine(x, y, h)];
    }

    method DrawLine(x1: int, y1: int, x2: int, y2: int)
      modifies this
      ensures trace == old(trace) + [Line(x1, y1, x2, y2)]
    {
      trace := trace + [Line(x1, y1, x2, y2)];
    }

    method DrawCircle(cx: int, cy: int, r: int)
      modifies this
      ensures trace == old(trace) + [Circle(cx, cy, r)]
    {
      trace := trace + [Circle(cx, cy, r)];
    }

    method DrawRoundRect(x: int, y: int, w: int, h: int, r: int)
      modifies this
      ensures trace == old(trace) + [RoundRect(x, y, w, h, r)]
    {
      trace := trace + [RoundRect(x, y, w, h, r)];
    }
  }

  /** Appending in two steps is appending the joined piece. */
  lemma AppendAssoc(a: seq<Cmd>, b: seq<Cmd>, c: seq<Cmd>)
    ensures a + (b + c) == a + b + c
  {
  }

  /** Row-major order of pixels: upper rows first, then left to right. */
  predicate Before(a: Cmd, b: Cmd) {
    a.Pixel? && b.Pixel? && (a.py < b.py || (a.py == b.py && a.px < b.px))
  }

  /** Every command is a pixel and the pixels come in strictly increasing
      row-major order (so, in particular, no pixel is emitted twice). */
  predicate RowMajor(s: seq<Cmd>) {
    (forall i :: 0 <= i < |s| ==> s[i].Pixel?) &&
    (forall i, j :: 0 <= i < j < |s| ==> Before(s[i], s[j]))
  }

  lemma RowMajorConcat(a: seq<Cmd>, b: seq<Cmd>)
    requires RowMajor(a) && RowMajor(b)
    requires forall i, j :: 0 <= i < |a| && 0 <= j < |b| ==> Before(a[i], b[j])
    ensures RowMajor(a + b)
  {
    var s := a + b;
    forall i, j | 0 <= i < j < |s| ensures Before(s[i], s[j]) {
      if j < |a| {
        assert s[i] == a[i] && s[j] == a[j];
      } else if i >= |a| {
        assert s[i] == b[i - |a|] && s[j] == b[j - |a|];
      } else {
        assert s[i] == a[i] && s[j] == b[j - |a|];
      }
    }
  }

  /** Row-major traces stack: pixels all above row `row`, then pixels on it. */
  lemma RowMajorStack(a: seq<Cmd>, b: seq<Cmd>, row: int)
    requires RowMajor(a) && RowMajor(b)
    requires forall c :: c in a ==> c.Pixel? && c.py < row
    requires forall c :: c in b ==> c.Pixel? && c.py == row
    ensures RowMajor(a + b)
  {
    forall i, j | 0 <= i < |a| && 0 <= j < |b| ensures Before(a[i], b[j]) {
      assert a[i] in a && b[j] in b;
    }
    RowMajorConcat(a, b);
  }

  /** A strictly row-major trace never paints the same pixel twice. */
  lemma RowMajorDistinct(s: seq<Cmd>, i: int, j: int)
    requires RowMajor(s) && 0 <= i < j < |s|
    ensures s[i] != s[j]
  {
    assert Before(s[i], s[j]);
  }
}
