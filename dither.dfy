/** Dithered fills: a region is "greyed" by painting only the pixels whose
    global coordinate sum is a multiple of `step`. */
module Dither {
  import opened Gfx

  /** The stipple mask, taken in global canvas coordinates.  Only the zero
      test is used, and a zero remainder means divisibility both for C++'s
      truncating `%` and for Dafny's Euclidean `%`. */
  predicate Stipple(px: int, py: int, step: int)
    requires step >= 1
  {
    (px + py) % step == 0
  }

  // ---------------------------------------------------------------------------
  // Rectangle
  // ---------------------------------------------------------------------------

  /** The pixels the inner loop emits on row `py` for the first `w` columns
      `x, x+1, ..., x+w-1`. */
  function RowDither(x: int, py: int, w: int, step: int): seq<Cmd>
    requires step >= 1
    decreases w
  {
    if w <= 0 then []
    else RowDither(x, py, w - 1, step)
         + (if Stipple(x + w - 1, py, step) then [Pixel(x + w - 1, py)] else [])
  }

  /** The pixels emitted for the rectangle `[x, x+w) x [y, y+h)`, row by row. */
  function RectDither(x: int, y: int, w: int, h: int, step: int): seq<Cmd>
    requires step >= 1
    decreases h
  {
    if h <= 0 then []
    else RectDither(x, y, w, h - 1, step) + RowDither(x, y + h - 1, w, step)
  }

  /** What one row holds: exactly the stippled pixels of `[x, x+w)` on row `py`,
      left to right. */
  lemma {:induction false} RowDitherFacts(x: int, py: int, w: int, step: int)
    requires step >= 1
    ensures RowMajor(RowDither(x, py, w, step))
    ensures forall c :: c in RowDither(x, py, w, step) ==>
              c.Pixel? && c.py == py && x <= c.px < x + w && Stipple(c.px, c.py, step)
    ensures forall px :: x <= px < x + w && Stipple(px, py, step) ==>
              Pixel(px, py) in RowDither(x, py, w, step)
    decreases w
  {
    if w > 0 {
      RowDitherFacts(x, py, w - 1, step);
      var prev := RowDither(x, py, w - 1, step);
      var last: seq<Cmd> := if Stipple(x + w - 1, py, step) then [Pixel(x + w - 1, py)] else [];
      assert RowDither(x, py, w, step) == prev + last;
      forall i, j | 0 <= i < |prev| && 0 <= j < |last| ensures Before(prev[i], last[j]) {
        assert prev[i] in prev;
      }
      RowMajorConcat(prev, last);
    }
  }

  /** `fillRectDither` paints exactly the pixels `(px, py)` with
      `x <= px < x+w`, `y <= py < y+h` and `(px + py) % step == 0`, each once,
      in row-major order. */
  lemma {:induction false} RectDitherExact(x: int, y: int, w: int, h: int, step: int)
    requires step >= 1
    ensures RowMajor(RectDither(x, y, w, h, step))
    ensures forall c :: c in RectDither(x, y, w, h, step) ==>
              c.Pixel? && x <= c.px < x + w && y <= c.py < y + h && Stipple(c.px, c.py, step)
    ensures forall px, py :: x <= px < x + w && y <= py < y + h && Stipple(px, py, step) ==>
              Pixel(px, py) in RectDither(x, y, w, h, step)
    decreases h
  {
    if h > 0 {
      RectDitherExact(x, y, w, h - 1, step);
      RowDitherFacts(x, y + h - 1, w, step);
      var above := RectDither(x, y, w, h - 1, step);
      var row := RowDither(x, y + h - 1, w, step);
      forall i, j | 0 <= i < |above| && 0 <= j < |row| ensures Before(above[i], row[j]) {
        assert above[i] in above && row[j] in row;
      }
      RowMajorConcat(above, row);
    }
  }

  /** No pixel of the rectangle is painted twice. */
  lemma RectDitherOnce(x: int, y: int, w: int, h: int, step: int, i: int, j: int)
    requires step >= 1 && 0 <= i < j < |RectDither(x, y, w, h, step)|
    ensures RectDither(x, y, w, h, step)[i] != RectDither(x, y, w, h, step)[j]
  {
    RectDitherExact(x, y, w, h, step);
    RowMajorDistinct(RectDither(x, y, w, h, step), i, j);
  }

  /** An empty width or height paints nothing. */
  lemma {:induction false} RectDitherEmpty(x: int, y: int, w: int, h: int, step: int)
    requires step >= 1
    requires w <= 0 || h <= 0
    ensures RectDither(x, y, w, h, step) == []
    decreases h
  {
    if h > 0 {
      RectDitherEmpty(x, y, w, h - 1, step);
    }
  }

  /** What the C++ parameter and loop-counter types can hold: `int16_t`
      corners and sizes, an `int16_t` counter that must be able to reach
      `y + h` whenever the rows loop runs and `x + w` whenever the columns
      loop runs, and a `uint8_t` step that is not zero. */
  predicate RectArgs(x: int, y: int, w: int, h: int, step: int) {
    IsI16(x) && IsI16(y) && IsI16(w) && IsI16(h) &&
    (w > 0 && h > 0 ==> x + w <= I16_MAX) && (h > 0 ==> y + h <= I16_MAX) &&
    1 <= step <= 255
  }

  /** fillRectDither */
  method FillRectDither(d: Canvas, x: int, y: int, w: int, h: int, step: int := 2)
    requires RectArgs(x, y, w, h, step)
    modifies d
    ensures d.trace == old(d.trace) + RectDither(x, y, w, h, step)
  {
    var yy := y;
    while yy < y + h
      invariant y <= yy <= (if h > 0 then y + h else y)
      invariant d.trace == old(d.trace) + RectDither(x, y, w, yy - y, step)
    {
      var xx := x;
      while xx < x + w
        invariant x <= xx <= (if w > 0 then x + w else x)
        invariant d.trace == old(d.trace) + RectDither(x, y, w, yy - y, step)
                             + RowDither(x, yy, xx - x, step)
      {
        if (xx + yy) % step == 0 {
          d.DrawPixel(xx, yy);
        }
        xx := xx + 1;
      }
      yy := yy + 1;
    }
  }

  // ---------------------------------------------------------------------------
  // Circle
  // ---------------------------------------------------------------------------

  /** The square of `v`, as the source's `xx * xx` computes it. */
  function Sq(v: int): int { v * v }

  /** The local offset `(xx, yy)` lies in the closed disc of radius `r`. */
  predicate InDisc(xx: int, yy: int, r: int) {
    Sq(xx) + Sq(yy) <= Sq(r)
  }

  /** The pixels the inner loop emits on local row `yy` for the first `m`
      local columns `-r, -r+1, ..., -r+m-1`. */
  function CircleRow(cx: int, cy: int, r: int, yy: int, m: int, step: int): seq<Cmd>
    requires step >= 1
    decreases m
  {
    if m <= 0 then []
    else
      var xx := -r + m - 1;
      CircleRow(cx, cy, r, yy, m - 1, step)
      + (if InDisc(xx, yy, r) && Stipple(cx + xx, cy + yy, step)
         then [Pixel(cx + xx, cy + yy)] else [])
  }

  /** The pixels emitted for the first `n` local rows `-r, ..., -r+n-1`. */
  function CircleRows(cx: int, cy: int, r: int, n: int, step: int): seq<Cmd>
    requires step >= 1
    decreases n
  {
    if n <= 0 then []
    else CircleRows(cx, cy, r, n - 1, step) + CircleRow(cx, cy, r, -r + n - 1, 2 * r + 1, step)
  }

  /** The pixels `fillCircleDither` emits: the whole `[-r, r]` square scan. */
  function CircleDither(cx: int, cy: int, r: int, step: int): seq<Cmd>
    requires step >= 1
  {
    CircleRows(cx, cy, r, 2 * r + 1, step)
  }

  /** Every pixel of a local row is on that row, in the scanned columns, in
      the disc and stippled. */
  lemma {:induction false} CircleRowSound(cx: int, cy: int, r: int, yy: int, m: int, step: int)
    requires step >= 1
    ensures forall c :: c in CircleRow(cx, cy, r, yy, m, step) ==>
              c.Pixel? && c.py == cy + yy && -r <= c.px - cx < -r + m &&
              InDisc(c.px - cx, c.py - cy, r) && Stipple(c.px, c.py, step)
    decreases m
  {
    if m > 0 {
      CircleRowSound(cx, cy, r, yy, m - 1, step);
    }
  }

  /** Every stippled disc pixel of the scanned columns of a local row is emitted. */
  lemma {:induction false} CircleRowComplete(cx: int, cy: int, r: int, yy: int, m: int, step: int)
    requires step >= 1
    ensures forall px, py ::
              (py == cy + yy && -r <= px - cx < -r + m &&
               InDisc(px - cx, py - cy, r) && Stipple(px, py, step)) ==>
              Pixel(px, py) in CircleRow(cx, cy, r, yy, m, step)
    decreases m
  {
    if m > 0 {
      CircleRowComplete(cx, cy, r, yy, m - 1, step);
    }
  }

  /** A local row is emitted left to right. */
  lemma {:induction false} CircleRowOrdered(cx: int, cy: int, r: int, yy: int, m: int, step: int)
    requires step >= 1
    ensures RowMajor(CircleRow(cx, cy, r, yy, m, step))
    decreases m
  {
    if m > 0 {
      CircleRowOrdered(cx, cy, r, yy, m - 1, step);
      CircleRowSound(cx, cy, r, yy, m - 1, step);
      var xx := -r + m - 1;
      var prev := CircleRow(cx, cy, r, yy, m - 1, step);
      var last: seq<Cmd> := if InDisc(xx, yy, r) && Stipple(cx + xx, cy + yy, step)
                            then [Pixel(cx + xx, cy + yy)] else [];
      forall i, j | 0 <= i < |prev| && 0 <= j < |last| ensures Before(prev[i], last[j]) {
        assert prev[i] in prev;
      }
      RowMajorConcat(prev, last);
    }
  }

  /** Every pixel of the first `n` local rows is in those rows, in the disc
      and stippled. */
  lemma {:induction false} CircleRowsSound(cx: int, cy: int, r: int, n: int, step: int)
    requires step >= 1
    ensures forall c :: c in CircleRows(cx, cy, r, n, step) ==>
              c.Pixel? && -r <= c.py - cy < -r + n && -r <= c.px - cx <= r &&
              InDisc(c.px - cx, c.py - cy, r) && Stipple(c.px, c.py, step)
    decreases n
  {
    if n > 0 {
      CircleRowsSound(cx, cy, r, n - 1, step);
      CircleRowSound(cx, cy, r, -r + n - 1, 2 * r + 1, step);
    }
  }

  /** Every stippled disc pixel of the first `n` local rows is emitted. */
  lemma CircleRowsComplete(cx: int, cy: int, r: int, n: int, step: int)
    requires step >= 1
    ensures forall px, py ::
              (-r <= py - cy < -r + n && -r <= px - cx <= r &&
               InDisc(px - cx, py - cy, r) && Stipple(px, py, step)) ==>
              Pixel(px, py) in CircleRows(cx, cy, r, n, step)
  {
    forall px, py | -r <= py - cy < -r + n && -r <= px - cx <= r &&
                    InDisc(px - cx, py - cy, r) && Stipple(px, py, step)
      ensures Pixel(px, py) in CircleRows(cx, cy, r, n, step)
    {
      CircleRowsCompleteAt(cx, cy, r, n, step, px, py);
    }
  }

  /** One stippled disc pixel of the first `n` local rows is emitted: on the
      last of those rows by that row's pass, otherwise by an earlier one. */
  lemma {:induction false} CircleRowsCompleteAt(cx: int, cy: int, r: int, n: int, step: int,
                                                px: int, py: int)
    requires step >= 1
    requires -r <= py - cy < -r + n && -r <= px - cx <= r
    requires InDisc(px - cx, py - cy, r) && Stipple(px, py, step)
    ensures Pixel(px, py) in CircleRows(cx, cy, r, n, step)
    decreases n
  {
    var yy := -r + n - 1;
    var above := CircleRows(cx, cy, r, n - 1, step);
    var row := CircleRow(cx, cy, r, yy, 2 * r + 1, step);
    assert CircleRows(cx, cy, r, n, step) == above + row;
    if py - cy == yy {
      CircleRowComplete(cx, cy, r, yy, 2 * r + 1, step);
      assert Pixel(px, py) in row;
    } else {
      CircleRowsCompleteAt(cx, cy, r, n - 1, step, px, py);
      assert Pixel(px, py) in above;
    }
  }

  /** The first `n` local rows are emitted in row-major order. */
  lemma {:induction false} CircleRowsOrdered(cx: int, cy: int, r: int, n: int, step: int)
    requires step >= 1
    ensures RowMajor(CircleRows(cx, cy, r, n, step))
    decreases n
  {
    if n > 0 {
      var yy := -r + n - 1;
      var above := CircleRows(cx, cy, r, n - 1, step);
      var row := CircleRow(cx, cy, r, yy, 2 * r + 1, step);
      assert RowMajor(above + row) by {
        CircleRowsOrdered(cx, cy, r, n - 1, step);
        CircleRowOrdered(cx, cy, r, yy, 2 * r + 1, step);
        CircleRowsSound(cx, cy, r, n - 1, step);
        CircleRowSound(cx, cy, r, yy, 2 * r + 1, step);
        RowMajorStack(above, row, cy + yy);
      }
      assert CircleRows(cx, cy, r, n, step) == above + row;
    }
  }

  lemma SquareGrows(a: int, b: int)
    requires 0 <= a
    ensures a < b ==> Sq(a) < Sq(b)
  {
    if a < b {
      assert b * b == (b - a) * (b + a) + a * a;
      assert (b - a) * (b + a) > 0;
    }
  }

  /** A point of the closed disc lies in its bounding square. */
  lemma DiscInSquare(xx: int, yy: int, r: int)
    requires r >= 0 && InDisc(xx, yy, r)
    ensures -r <= xx <= r && -r <= yy <= r
  {
    assert Sq(xx) >= 0 && Sq(yy) >= 0;
    SquareGrows(r, xx);
    SquareGrows(r, -xx);
    SquareGrows(r, yy);
    SquareGrows(r, -yy);
  }

  /** `fillCircleDither` paints exactly the pixels of the closed disc whose
      global coordinate sum is a multiple of `step`, each once, in row-major
      order; a negative radius paints nothing.  Every painted pixel lies in
      the square `[cx-r, cx+r] x [cy-r, cy+r]`. */
  lemma CircleDitherExact(cx: int, cy: int, r: int, step: int)
    requires step >= 1
    ensures RowMajor(CircleDither(cx, cy, r, step))
    ensures forall c :: c in CircleDither(cx, cy, r, step) ==>
              c.Pixel? && cx - r <= c.px <= cx + r && cy - r <= c.py <= cy + r &&
              InDisc(c.px - cx, c.py - cy, r) && Stipple(c.px, c.py, step)
    ensures forall px, py ::
              Pixel(px, py) in CircleDither(cx, cy, r, step) <==>
              r >= 0 && InDisc(px - cx, py - cy, r) && Stipple(px, py, step)
  {
    CircleRowsSound(cx, cy, r, 2 * r + 1, step);
    CircleRowsComplete(cx, cy, r, 2 * r + 1, step);
    CircleRowsOrdered(cx, cy, r, 2 * r + 1, step);
    forall px, py | r >= 0 && InDisc(px - cx, py - cy, r) && Stipple(px, py, step)
      ensures Pixel(px, py) in CircleDither(cx, cy, r, step)
    {
      DiscInSquare(px - cx, py - cy, r);
    }
  }

  /** No pixel of the disc is painted twice. */
  lemma CircleDitherOnce(cx: int, cy: int, r: int, step: int, i: int, j: int)
    requires step >= 1 && 0 <= i < j < |CircleDither(cx, cy, r, step)|
    ensures CircleDither(cx, cy, r, step)[i] != CircleDither(cx, cy, r, step)[j]
  {
    CircleDitherExact(cx, cy, r, step);
    RowMajorDistinct(CircleDither(cx, cy, r, step), i, j);
  }

  /** What the C++ types can hold: `int16_t` centre and radius (`-r` too),
      `int16_t` loop counters that must be able to reach `r + 1`, pixel
      coordinates `cx + xx`, `cy + yy` stored in `int16_t`, and a `uint8_t`
      step that is not zero.  The squared radius is not bounded:
      the model keeps `r2` wide (see `AsWrittenRadiusSquare`). */
  predicate CircleArgs(cx: int, cy: int, r: int, step: int) {
    IsI16(cx) && IsI16(cy) && -I16_MAX <= r && r < I16_MAX &&
    (r >= 0 ==> IsI16(cx - r) && IsI16(cx + r) && IsI16(cy - r) && IsI16(cy + r)) &&
    1 <= step <= 255
  }

  /** fillCircleDither (with `r2` widened; see `AsWrittenRadiusSquare`) */
  method FillCircleDither(d: Canvas, cx: int, cy: int, r: int, step: int := 2)
    requires CircleArgs(cx, cy, r, step)
    modifies d
    ensures d.trace == old(d.trace) + CircleDither(cx, cy, r, step)
  {
    var r2 := r * r;
    var yy := -r;
    while yy <= r
      invariant -r <= yy <= (if r >= 0 then r + 1 else -r)
      invariant d.trace == old(d.trace) + CircleRows(cx, cy, r, yy + r, step)
    {
      var xx := -r;
      while xx <= r
        invariant -r <= xx <= r + 1
        invariant d.trace == old(d.trace) + CircleRows(cx, cy, r, yy + r, step)
                             + CircleRow(cx, cy, r, yy, xx + r, step)
      {
        ghost var last: seq<Cmd> := if InDisc(xx, yy, r) && Stipple(cx + xx, cy + yy, step)
                                    then [Pixel(cx + xx, cy + yy)] else [];
        assert CircleRow(cx, cy, r, yy, xx + r + 1, step) == CircleRow(cx, cy, r, yy, xx + r, step) + last;
        AppendAssoc(old(d.trace) + CircleRows(cx, cy, r, yy + r, step),
                    CircleRow(cx, cy, r, yy, xx + r, step), last);
        if xx * xx + yy * yy <= r2 {
          var px := cx + xx;
          var py := cy + yy;
          if (px + py) % step == 0 {
            d.DrawPixel(px, py);
          }
        }
        xx := xx + 1;
      }
      yy := yy + 1;
    }
  }

  // ---------------------------------------------------------------------------
  // The squared radius as written: an `int16_t`
  // ---------------------------------------------------------------------------

  /** Conversion of an `int` to `int16_t` (modular, as GCC does and C++20 requires). */
  function ToInt16(v: int): (r: int)
    ensures IsI16(r) && (r - v) % 65536 == 0
  {
    (v + 32768) % 65536 - 32768
  }

  /** The disc test of the source, against `r2 = r * r` stored in an `int16_t`. */
  predicate AsWrittenInDisc(xx: int, yy: int, r: int) {
    Sq(xx) + Sq(yy) <= ToInt16(Sq(r))
  }

  /** For `182 <= r <= 255`, `r * r` exceeds 32767 and the `int16_t` `r2`
      wraps to the negative `r * r - 65536`; no offset passes the disc test,
      so the loops paint nothing although the disc holds `(0, 0)`. */
  lemma AsWrittenRadiusSquare(r: int)
    requires 182 <= r <= 255
    ensures ToInt16(Sq(r)) == Sq(r) - 65536 < 0
    ensures InDisc(0, 0, r) && forall xx, yy :: !AsWrittenInDisc(xx, yy, r)
  {
    SquareGrows(182, r);
    SquareGrows(r, 256);
    assert 33124 <= Sq(r) < 65536;
    forall xx, yy ensures !AsWrittenInDisc(xx, yy, r) {
      SquareNonNegative(xx);
      SquareNonNegative(yy);
    }
  }

  /** For `|r| <= 181`, `r * r <= 32761` fits the `int16_t` `r2`, and the
      disc test as written is the intended one. */
  lemma SmallRadiusAgrees(r: int, xx: int, yy: int)
    requires -181 <= r <= 181
    ensures AsWrittenInDisc(xx, yy, r) <==> InDisc(xx, yy, r)
  {
    var a := if r < 0 then -r else r;
    assert Sq(r) == Sq(a) by {
      assert r * r == (-r) * (-r);
    }
    SquareNonNegative(a);
    SquareGrows(a, 181);
    assert Sq(181) == 32761;
    ToInt16InRange(Sq(r));
  }

  /** A value `int16_t` can hold converts to itself. */
  lemma ToInt16InRange(v: int)
    requires IsI16(v)
    ensures ToInt16(v) == v
  {
  }

  lemma SquareNonNegative(v: int)
    ensures Sq(v) >= 0
  {
    if v < 0 {
      assert Sq(v) == (-v) * (-v);
    }
  }

  /** With `r2` kept wide, the centre of every disc of radius `r >= 0` is
      painted when its stipple test passes, whatever the radius. */
  lemma CentreIsPainted(cx: int, cy: int, r: int, step: int)
    requires r >= 0 && step >= 1 && Stipple(cx, cy, step)
    ensures Pixel(cx, cy) in CircleDither(cx, cy, r, step)
  {
    CircleDitherExact(cx, cy, r, step);
    assert InDisc(0, 0, r) by {
      SquareNonNegative(r);
    }
  }

  // ---------------------------------------------------------------------------
  // Rounded rectangle
  // ---------------------------------------------------------------------------

  /** What `fillRoundRectDither` emits: the rectangle's stipple, then one
      outline on top. */
  function RoundRectDither(x: int, y: int, w: int, h: int, r: int, step: int): seq<Cmd>
    requires step >= 1
  {
    RectDither(x, y, w, h, step) + [RoundRect(x, y, w, h, r)]
  }

  /** `fillRoundRectDither` paints the stippled pixels of `[x, x+w) x [y, y+h)`
      in row-major order, then exactly one outline, and nothing else: the
      outline is its last and only non-pixel command. */
  lemma RoundRectDitherExact(x: int, y: int, w: int, h: int, r: int, step: int)
    requires step >= 1
    ensures var s := RoundRectDither(x, y, w, h, r, step);
      |s| >= 1 && s[|s| - 1] == RoundRect(x, y, w, h, r) &&
      RowMajor(s[..|s| - 1]) &&
      (forall i :: 0 <= i < |s| - 1 ==>
         x <= s[i].px < x + w && y <= s[i].py < y + h && Stipple(s[i].px, s[i].py, step)) &&
      (forall px, py :: x <= px < x + w && y <= py < y + h && Stipple(px, py, step) ==>
         Pixel(px, py) in s[..|s| - 1])
  {
    RectDitherExact(x, y, w, h, step);
    var s := RoundRectDither(x, y, w, h, r, step);
    var fill := RectDither(x, y, w, h, step);
    assert s[..|s| - 1] == fill;
    forall i | 0 <= i < |s| - 1
      ensures x <= s[i].px < x + w && y <= s[i].py < y + h && Stipple(s[i].px, s[i].py, step)
    {
      assert s[i] == fill[i] && fill[i] in fill;
    }
  }

  /** fillRoundRectDither */
  method FillRoundRectDither(d: Canvas, x: int, y: int, w: int, h: int, r: int, step: int := 2)
    requires RectArgs(x, y, w, h, step) && IsI16(r)
    modifies d
    ensures d.trace == old(d.trace) + RoundRectDither(x, y, w, h, r, step)
  {
    FillRectDither(d, x, y, w, h, step);
    d.DrawRoundRect(x, y, w, h, r);
  }
}
