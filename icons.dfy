/** The two fully given renderers, `draw_icon_clear` (sun) and
    `draw_icon_few` (sun behind a cloud), and the promise that every icon
    fits a 50 x 50 box anchored at its origin. */
module Icons {
  import opened Gfx
  import opened Dither
  import opened ThickLine

  const ICON_W: int := 50
  const ICON_H: int := 50

  /** Horizontal / vertical membership of the half-open box `[x, x+50) x [y, y+50)`. */
  predicate InColumns(v: int, x: int) { x <= v < x + ICON_W }
  predicate InRows(v: int, y: int) { y <= v < y + ICON_H }

  /** The command's extent lies in the icon box.  A segment is taken by its
      end points (a fast line of length `w` ends at `x + w - 1`), a circle by
      `[c - r, c + r]`, a rounded rectangle by its outer corners. */
  predicate WithinBox(c: Cmd, x: int, y: int) {
    match c
    case Pixel(px, py) => InColumns(px, x) && InRows(py, y)
    case HLine(hx, hy, w) => InColumns(hx, x) && InColumns(hx + w - 1, x) && InRows(hy, y)
    case VLine(vx, vy, h) => InColumns(vx, x) && InRows(vy, y) && InRows(vy + h - 1, y)
    case Line(x1, y1, x2, y2) => InColumns(x1, x) && InColumns(x2, x) && InRows(y1, y) && InRows(y2, y)
    case Circle(cx, cy, r) =>
      InColumns(cx - r, x) && InColumns(cx + r, x) && InRows(cy - r, y) && InRows(cy + r, y)
    case RoundRect(rx, ry, rw, rh, _) =>
      InColumns(rx, x) && InColumns(rx + rw - 1, x) && InRows(ry, y) && InRows(ry + rh - 1, y)
  }

  predicate AllWithin(s: seq<Cmd>, x: int, y: int) {
    forall c :: c in s ==> WithinBox(c, x, y)
  }

  /** The commands `draw_icon_clear` emits for the origin `(x, y)`. */
  function ClearIcon(x: int, y: int): seq<Cmd> {
    var cx, cy := x + 25, y + 25;
    var r1, r2 := 16, 21;
    var d1, d2 := 11, 16;
    CircleDither(cx, cy, 9, 2)
    + [Circle(cx, cy, 12)] + [Circle(cx, cy, 13)]
    + Thick(VStroke(cx, cy - r2, cy - r1), 2)
    + Thick(VStroke(cx, cy + r1, cy + r2), 2)
    + Thick(HStroke(cx - r2, cx - r1, cy), 2)
    + Thick(HStroke(cx + r1, cx + r2, cy), 2)
    + Thick(DStroke(cx - d2, cy - d2, cx - d1, cy - d1), 2)
    + Thick(DStroke(cx + d1, cy - d1, cx + d2, cy - d2), 2)
    + Thick(DStroke(cx - d2, cy + d2, cx - d1, cy + d1), 2)
    + Thick(DStroke(cx + d1, cy + d1, cx + d2, cy + d2), 2)
  }

  /** The commands `draw_icon_few` emits for the origin `(x, y)`. */
  function FewIcon(x: int, y: int): seq<Cmd> {
    var sx, sy := x + 14, y + 14;
    var cx, cy := x + 30, y + 30;
    CircleDither(sx, sy, 6, 2)
    + [Circle(sx, sy, 7)]
    + Thick(VStroke(sx, sy - 11, sy - 7), 1)
    + Thick(HStroke(sx + 6, sx + 12, sy), 1)
    + RoundRectDither(cx - 18, cy - 7, 36, 18, 9, 2)
    + CircleDither(cx - 11, cy - 7, 7, 3)
    + CircleDither(cx + 3, cy - 8, 9, 3)
    + [HLine(cx - 17, cy + 5, 34)]
  }

  /** The whole icon box has `int16_t` coordinates, so every coordinate the
      renderers hand to the helpers fits their parameters. */
  predicate IconOrigin(x: int, y: int) {
    I16_MIN <= x && x + ICON_W <= I16_MAX && I16_MIN <= y && y + ICON_H <= I16_MAX
  }

  /** Every helper call of `draw_icon_clear` gets arguments its C++ types hold. */
  lemma ClearArgs(x: int, y: int)
    requires IconOrigin(x, y)
    ensures CircleArgs(x + 25, y + 25, 9, 2)
    ensures StrokeArgs(VStroke(x + 25, y + 25 - 21, y + 25 - 16), 2)
    ensures StrokeArgs(VStroke(x + 25, y + 25 + 16, y + 25 + 21), 2)
    ensures StrokeArgs(HStroke(x + 25 - 21, x + 25 - 16, y + 25), 2)
    ensures StrokeArgs(HStroke(x + 25 + 16, x + 25 + 21, y + 25), 2)
    ensures StrokeArgs(DStroke(x + 25 - 16, y + 25 - 16, x + 25 - 11, y + 25 - 11), 2)
    ensures StrokeArgs(DStroke(x + 25 + 11, y + 25 - 11, x + 25 + 16, y + 25 - 16), 2)
    ensures StrokeArgs(DStroke(x + 25 - 16, y + 25 + 16, x + 25 - 11, y + 25 + 11), 2)
    ensures StrokeArgs(DStroke(x + 25 + 11, y + 25 + 11, x + 25 + 16, y + 25 + 16), 2)
  {
  }

  /** draw_icon_clear */
  method DrawIconClear(d: Canvas, x: int, y: int)
    requires IconOrigin(x, y)
    modifies d
    ensures d.trace == old(d.trace) + ClearIcon(x, y)
  {
    ClearArgs(x, y);
    var cx := x + 25;
    var cy := y + 25;
    FillCircleDither(d, cx, cy, 9, 2);
    d.DrawCircle(cx, cy, 12);
    d.DrawCircle(cx, cy, 13);
    var r1 := 16;
    var r2 := 21;
    DrawThickV(d, cx, cy - r2, cy - r1, 2);
    DrawThickV(d, cx, cy + r1, cy + r2, 2);
    DrawThickH(d, cx - r2, cx - r1, cy, 2);
    DrawThickH(d, cx + r1, cx + r2, cy, 2);
    var d1 := 11;
    var d2 := 16;
    DrawThickDiag(d, cx - d2, cy - d2, cx - d1, cy - d1, 2);
    DrawThickDiag(d, cx + d1, cy - d1, cx + d2, cy - d2, 2);
    DrawThickDiag(d, cx - d2, cy + d2, cx - d1, cy + d1, 2);
    DrawThickDiag(d, cx + d1, cy + d1, cx + d2, cy + d2, 2);
    ClearIconAppended(old(d.trace), x, y);
  }

  /** Every helper call of `draw_icon_few` gets arguments its C++ types hold. */
  lemma FewArgs(x: int, y: int)
    requires IconOrigin(x, y)
    ensures CircleArgs(x + 14, y + 14, 6, 2)
    ensures StrokeArgs(VStroke(x + 14, y + 14 - 11, y + 14 - 7), 1)
    ensures StrokeArgs(HStroke(x + 14 + 6, x + 14 + 12, y + 14), 1)
    ensures RectArgs(x + 30 - 18, y + 30 - 7, 36, 18, 2) && IsI16(9)
    ensures CircleArgs(x + 30 - 11, y + 30 - 7, 7, 3)
    ensures CircleArgs(x + 30 + 3, y + 30 - 8, 9, 3)
  {
  }

  /** draw_icon_few */
  method DrawIconFew(d: Canvas, x: int, y: int)
    requires IconOrigin(x, y)
    modifies d
    ensures d.trace == old(d.trace) + FewIcon(x, y)
  {
    FewArgs(x, y);
    var sx := x + 14;
    var sy := y + 14;
    FillCircleDither(d, sx, sy, 6, 2);
    d.DrawCircle(sx, sy, 7);
    DrawThickV(d, sx, sy - 11, sy - 7, 1);
    DrawThickH(d, sx + 6, sx + 12, sy, 1);
    var cx := x + 30;
    var cy := y + 30;
    FillRoundRectDither(d, cx - 18, cy - 7, 36, 18, 9, 2);
    FillCircleDither(d, cx - 11, cy - 7, 7, 3);
    FillCircleDither(d, cx + 3, cy - 8, 9, 3);
    d.DrawFastHLine(cx - 17, cy + 5, 34);
    FewIconAppended(old(d.trace), x, y);
  }

  /** Appending `ClearIcon` is appending its pieces one after the other, as the renderer does. */
  lemma ClearIconAppended(t0: seq<Cmd>, x: int, y: int)
    ensures t0 + ClearIcon(x, y) ==
              t0
              + CircleDither(x + 25, y + 25, 9, 2)
              + [Circle(x + 25, y + 25, 12)]
              + [Circle(x + 25, y + 25, 13)]
              + Thick(VStroke(x + 25, y + 25 - 21, y + 25 - 16), 2)
              + Thick(VStroke(x + 25, y + 25 + 16, y + 25 + 21), 2)
              + Thick(HStroke(x + 25 - 21, x + 25 - 16, y + 25), 2)
              + Thick(HStroke(x + 25 + 16, x + 25 + 21, y + 25), 2)
              + Thick(DStroke(x + 25 - 16, y + 25 - 16, x + 25 - 11, y + 25 - 11), 2)
              + Thick(DStroke(x + 25 + 11, y + 25 - 11, x + 25 + 16, y + 25 - 16), 2)
              + Thick(DStroke(x + 25 - 16, y + 25 + 16, x + 25 - 11, y + 25 + 11), 2)
              + Thick(DStroke(x + 25 + 11, y + 25 + 11, x + 25 + 16, y + 25 + 16), 2)
  {
    var p0 := CircleDither(x + 25, y + 25, 9, 2);
    var p1 := [Circle(x + 25, y + 25, 12)];
    var p2 := [Circle(x + 25, y + 25, 13)];
    var p3 := Thick(VStroke(x + 25, y + 25 - 21, y + 25 - 16), 2);
    var p4 := Thick(VStroke(x + 25, y + 25 + 16, y + 25 + 21), 2);
    var p5 := Thick(HStroke(x + 25 - 21, x + 25 - 16, y + 25), 2);
    var p6 := Thick(HStroke(x + 25 + 16, x + 25 + 21, y + 25), 2);
    var p7 := Thick(DStroke(x + 25 - 16, y + 25 - 16, x + 25 - 11, y + 25 - 11), 2);
    var p8 := Thick(DStroke(x + 25 + 11, y + 25 - 11, x + 25 + 16, y + 25 - 16), 2);
    var p9 := Thick(DStroke(x + 25 - 16, y + 25 + 16, x + 25 - 11, y + 25 + 11), 2);
    var p10 := Thick(DStroke(x + 25 + 11, y + 25 + 11, x + 25 + 16, y + 25 + 16), 2);
    assert ClearIcon(x, y) == p0 + p1 + p2 + p3 + p4 + p5 + p6 + p7 + p8 + p9 + p10;
    AppendAssoc(t0, p0 + p1 + p2 + p3 + p4 + p5 + p6 + p7 + p8 + p9, p10);
    AppendAssoc(t0, p0 + p1 + p2 + p3 + p4 + p5 + p6 + p7 + p8, p9);
    AppendAssoc(t0, p0 + p1 + p2 + p3 + p4 + p5 + p6 + p7, p8);
    AppendAssoc(t0, p0 + p1 + p2 + p3 + p4 + p5 + p6, p7);
    AppendAssoc(t0, p0 + p1 + p2 + p3 + p4 + p5, p6);
    AppendAssoc(t0, p0 + p1 + p2 + p3 + p4, p5);
    AppendAssoc(t0, p0 + p1 + p2 + p3, p4);
    AppendAssoc(t0, p0 + p1 + p2, p3);
    AppendAssoc(t0, p0 + p1, p2);
    AppendAssoc(t0, p0, p1);
  }

  /** Appending `FewIcon` is appending its pieces one after the other, as the renderer does. */
  lemma FewIconAppended(t0: seq<Cmd>, x: int, y: int)
    ensures t0 + FewIcon(x, y) ==
              t0
              + CircleDither(x + 14, y + 14, 6, 2)
              + [Circle(x + 14, y + 14, 7)]
              + Thick(VStroke(x + 14, y + 14 - 11, y + 14 - 7), 1)
              + Thick(HStroke(x + 14 + 6, x + 14 + 12, y + 14), 1)
              + RoundRectDither(x + 30 - 18, y + 30 - 7, 36, 18, 9, 2)
              + CircleDither(x + 30 - 11, y + 30 - 7, 7, 3)
              + CircleDither(x + 30 + 3, y + 30 - 8, 9, 3)
              + [HLine(x + 30 - 17, y + 30 + 5, 34)]
  {
    var p0 := CircleDither(x + 14, y + 14, 6, 2);
    var p1 := [Circle(x + 14, y + 14, 7)];
    var p2 := Thick(VStroke(x + 14, y + 14 - 11, y + 14 - 7), 1);
    var p3 := Thick(HStroke(x + 14 + 6, x + 14 + 12, y + 14), 1);
    var p4 := RoundRectDither(x + 30 - 18, y + 30 - 7, 36, 18, 9, 2);
    var p5 := CircleDither(x + 30 - 11, y + 30 - 7, 7, 3);
    var p6 := CircleDither(x + 30 + 3, y + 30 - 8, 9, 3);
    var p7 := [HLine(x + 30 - 17, y + 30 + 5, 34)];
    assert FewIcon(x, y) == p0 + p1 + p2 + p3 + p4 + p5 + p6 + p7;
    AppendAssoc(t0, p0 + p1 + p2 + p3 + p4 + p5 + p6, p7);
    AppendAssoc(t0, p0 + p1 + p2 + p3 + p4 + p5, p6);
    AppendAssoc(t0, p0 + p1 + p2 + p3 + p4, p5);
    AppendAssoc(t0, p0 + p1 + p2 + p3, p4);
    AppendAssoc(t0, p0 + p1 + p2, p3);
    AppendAssoc(t0, p0 + p1, p2);
    AppendAssoc(t0, p0, p1);
  }

  // ---------------------------------------------------------------------------
  // The 50 x 50 bounding box
  // ---------------------------------------------------------------------------

  lemma CircleDitherWithin(cx: int, cy: int, r: int, step: int, x: int, y: int)
    requires step >= 1
    requires InColumns(cx - r, x) && InColumns(cx + r, x) && InRows(cy - r, y) && InRows(cy + r, y)
    ensures AllWithin(CircleDither(cx, cy, r, step), x, y)
  {
    CircleDitherExact(cx, cy, r, step);
  }

  lemma RoundRectDitherWithin(rx: int, ry: int, w: int, h: int, r: int, step: int, x: int, y: int)
    requires step >= 1 && w >= 1 && h >= 1
    requires InColumns(rx, x) && InColumns(rx + w - 1, x) && InRows(ry, y) && InRows(ry + h - 1, y)
    ensures AllWithin(RoundRectDither(rx, ry, w, h, r, step), x, y)
  {
    RectDitherExact(rx, ry, w, h, step);
  }

  /** A thick stroke stays in the box when its two outermost strokes do. */
  lemma ThickWithin(s: Stroke, thickness: nat, x: int, y: int)
    requires WithinBox(StrokeAt(s, -(thickness / 2)), x, y)
    requires WithinBox(StrokeAt(s, thickness / 2), x, y)
    ensures AllWithin(Thick(s, thickness), x, y)
  {
    ThickShape(s, thickness);
    var t := Thick(s, thickness);
    forall c | c in t ensures WithinBox(c, x, y) {
      var i :| 0 <= i < |t| && t[i] == c;
      assert c == StrokeAt(s, i - thickness / 2);
    }
  }

  lemma AllWithinConcat(a: seq<Cmd>, b: seq<Cmd>, x: int, y: int)
    requires AllWithin(a, x, y) && AllWithin(b, x, y)
    ensures AllWithin(a + b, x, y)
  {
  }

  /** The sun body and its two rings stay in the box. */
  lemma ClearDiscWithinBox(x: int, y: int)
    ensures AllWithin(CircleDither(x + 25, y + 25, 9, 2)
                      + [Circle(x + 25, y + 25, 12)] + [Circle(x + 25, y + 25, 13)], x, y)
  {
    CircleDitherWithin(x + 25, y + 25, 9, 2, x, y);
    Join3(CircleDither(x + 25, y + 25, 9, 2),
          [Circle(x + 25, y + 25, 12)], [Circle(x + 25, y + 25, 13)], x, y);
  }

  /** The vertical and horizontal rays stay in the box. */
  lemma ClearStraightRaysWithinBox(x: int, y: int)
    ensures AllWithin(Thick(VStroke(x + 25, y + 25 - 21, y + 25 - 16), 2)
                      + Thick(VStroke(x + 25, y + 25 + 16, y + 25 + 21), 2)
                      + Thick(HStroke(x + 25 - 21, x + 25 - 16, y + 25), 2)
                      + Thick(HStroke(x + 25 + 16, x + 25 + 21, y + 25), 2), x, y)
  {
    var a, b := VStroke(x + 25, y + 25 - 21, y + 25 - 16), VStroke(x + 25, y + 25 + 16, y + 25 + 21);
    var c, e := HStroke(x + 25 - 21, x + 25 - 16, y + 25), HStroke(x + 25 + 16, x + 25 + 21, y + 25);
    ThickWithin(a, 2, x, y);
    ThickWithin(b, 2, x, y);
    ThickWithin(c, 2, x, y);
    ThickWithin(e, 2, x, y);
    Join3(Thick(a, 2), Thick(b, 2), Thick(c, 2), x, y);
    AllWithinConcat(Thick(a, 2) + Thick(b, 2) + Thick(c, 2), Thick(e, 2), x, y);
  }

  /** The diagonal rays stay in the box. */
  lemma ClearDiagonalRaysWithinBox(x: int, y: int)
    ensures AllWithin(Thick(DStroke(x + 25 - 16, y + 25 - 16, x + 25 - 11, y + 25 - 11), 2)
                      + Thick(DStroke(x + 25 + 11, y + 25 - 11, x + 25 + 16, y + 25 - 16), 2)
                      + Thick(DStroke(x + 25 - 16, y + 25 + 16, x + 25 - 11, y + 25 + 11), 2)
                      + Thick(DStroke(x + 25 + 11, y + 25 + 11, x + 25 + 16, y + 25 + 16), 2), x, y)
  {
    var a := DStroke(x + 25 - 16, y + 25 - 16, x + 25 - 11, y + 25 - 11);
    var b := DStroke(x + 25 + 11, y + 25 - 11, x + 25 + 16, y + 25 - 16);
    var c := DStroke(x + 25 - 16, y + 25 + 16, x + 25 - 11, y + 25 + 11);
    var e := DStroke(x + 25 + 11, y + 25 + 11, x + 25 + 16, y + 25 + 16);
    ThickWithin(a, 2, x, y);
    ThickWithin(b, 2, x, y);
    ThickWithin(c, 2, x, y);
    ThickWithin(e, 2, x, y);
    Join3(Thick(a, 2), Thick(b, 2), Thick(c, 2), x, y);
    AllWithinConcat(Thick(a, 2) + Thick(b, 2) + Thick(c, 2), Thick(e, 2), x, y);
  }

  /** `draw_icon_clear` draws only inside `[x, x+50) x [y, y+50)`. */
  lemma ClearWithinBox(x: int, y: int)
    ensures AllWithin(ClearIcon(x, y), x, y)
  {
    var disc := CircleDither(x + 25, y + 25, 9, 2)
                + [Circle(x + 25, y + 25, 12)] + [Circle(x + 25, y + 25, 13)];
    var t0 := Thick(VStroke(x + 25, y + 25 - 21, y + 25 - 16), 2);
    var t1 := Thick(VStroke(x + 25, y + 25 + 16, y + 25 + 21), 2);
    var t2 := Thick(HStroke(x + 25 - 21, x + 25 - 16, y + 25), 2);
    var t3 := Thick(HStroke(x + 25 + 16, x + 25 + 21, y + 25), 2);
    var t4 := Thick(DStroke(x + 25 - 16, y + 25 - 16, x + 25 - 11, y + 25 - 11), 2);
    var t5 := Thick(DStroke(x + 25 + 11, y + 25 - 11, x + 25 + 16, y + 25 - 16), 2);
    var t6 := Thick(DStroke(x + 25 - 16, y + 25 + 16, x + 25 - 11, y + 25 + 11), 2);
    var t7 := Thick(DStroke(x + 25 + 11, y + 25 + 11, x + 25 + 16, y + 25 + 16), 2);
    ClearDiscWithinBox(x, y);
    ClearStraightRaysWithinBox(x, y);
    ClearDiagonalRaysWithinBox(x, y);
    Join3(disc, t0 + t1 + t2 + t3, t4 + t5 + t6 + t7, x, y);
    assert ClearIcon(x, y) == disc + t0 + t1 + t2 + t3 + t4 + t5 + t6 + t7;
  }

  /** The sun of `draw_icon_few`, at `(x + 14, y + 14)`, stays in the box. */
  lemma FewSunWithinBox(x: int, y: int)
    ensures AllWithin(CircleDither(x + 14, y + 14, 6, 2) + [Circle(x + 14, y + 14, 7)]
                      + Thick(VStroke(x + 14, y + 14 - 11, y + 14 - 7), 1)
                      + Thick(HStroke(x + 14 + 6, x + 14 + 12, y + 14), 1), x, y)
  {
    var sx, sy := x + 14, y + 14;
    var acc := CircleDither(sx, sy, 6, 2);
    CircleDitherWithin(sx, sy, 6, 2, x, y);
    AllWithinConcat(acc, [Circle(sx, sy, 7)], x, y);
    acc := acc + [Circle(sx, sy, 7)];
    ThickWithin(VStroke(sx, sy - 11, sy - 7), 1, x, y);
    AllWithinConcat(acc, Thick(VStroke(sx, sy - 11, sy - 7), 1), x, y);
    acc := acc + Thick(VStroke(sx, sy - 11, sy - 7), 1);
    ThickWithin(HStroke(sx + 6, sx + 12, sy), 1, x, y);
    AllWithinConcat(acc, Thick(HStroke(sx + 6, sx + 12, sy), 1), x, y);
  }

  /** The cloud base and its left lobe stay in the box. */
  lemma FewCloudBaseWithinBox(x: int, y: int)
    ensures AllWithin(RoundRectDither(x + 30 - 18, y + 30 - 7, 36, 18, 9, 2)
                      + CircleDither(x + 30 - 11, y + 30 - 7, 7, 3), x, y)
  {
    RoundRectDitherWithin(x + 30 - 18, y + 30 - 7, 36, 18, 9, 2, x, y);
    CircleDitherWithin(x + 30 - 11, y + 30 - 7, 7, 3, x, y);
    AllWithinConcat(RoundRectDither(x + 30 - 18, y + 30 - 7, 36, 18, 9, 2),
                    CircleDither(x + 30 - 11, y + 30 - 7, 7, 3), x, y);
  }

  /** The cloud's right lobe and the bottom line stay in the box. */
  lemma FewCloudTopWithinBox(x: int, y: int)
    ensures AllWithin(CircleDither(x + 30 + 3, y + 30 - 8, 9, 3)
                      + [HLine(x + 30 - 17, y + 30 + 5, 34)], x, y)
  {
    CircleDitherWithin(x + 30 + 3, y + 30 - 8, 9, 3, x, y);
    AllWithinConcat(CircleDither(x + 30 + 3, y + 30 - 8, 9, 3),
                    [HLine(x + 30 - 17, y + 30 + 5, 34)], x, y);
  }

  /** `draw_icon_few` draws only inside `[x, x+50) x [y, y+50)`. */
  lemma FewWithinBox(x: int, y: int)
    ensures AllWithin(FewIcon(x, y), x, y)
  {
    var sun := CircleDither(x + 14, y + 14, 6, 2) + [Circle(x + 14, y + 14, 7)]
               + Thick(VStroke(x + 14, y + 14 - 11, y + 14 - 7), 1)
               + Thick(HStroke(x + 14 + 6, x + 14 + 12, y + 14), 1);
    var e := RoundRectDither(x + 30 - 18, y + 30 - 7, 36, 18, 9, 2);
    var f := CircleDither(x + 30 - 11, y + 30 - 7, 7, 3);
    var g := CircleDither(x + 30 + 3, y + 30 - 8, 9, 3);
    var h := [HLine(x + 30 - 17, y + 30 + 5, 34)];
    FewSunWithinBox(x, y);
    FewCloudBaseWithinBox(x, y);
    FewCloudTopWithinBox(x, y);
    Join3(sun, e + f, g + h, x, y);
    assert FewIcon(x, y) == sun + e + f + g + h;
    AppendAssoc(sun + e + f, g, h);
    AppendAssoc(sun, e, f);
  }

  lemma Join3(a: seq<Cmd>, b: seq<Cmd>, c: seq<Cmd>, x: int, y: int)
    requires AllWithin(a, x, y) && AllWithin(b, x, y) && AllWithin(c, x, y)
    ensures AllWithin(a + b + c, x, y)
  {
    AllWithinConcat(a, b, x, y);
    AllWithinConcat(a + b, c, x, y);
  }
}
