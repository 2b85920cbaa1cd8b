# IconsMono.h — monochrome weather icons, modelled in Dafny

`IconsMono.h` draws weather icons for 1-bit e-paper displays. It works only through an
Adafruit_GFX-like canvas. The model covers four parts of it.

- **Dither fill engine.** `fillRectDither`, `fillCircleDither` and `fillRoundRectDither` fake grey.
  They paint only the pixels of a region whose global coordinate sum `px + py` is divisible by
  a density `step`.
- **Thick-stroke engine.** `drawThickH`, `drawThickV` and `drawThickDiag` fake thickness.
  They draw `2 * (thickness / 2) + 1` parallel unit strokes at offsets `-off .. off` from the
  centre line.
- **Two renderers.** `draw_icon_clear` (the sun) and `draw_icon_few` (a sun behind a cloud) are
  straight-line sequences of helper calls.
- **Weather selector.** `draw_icon_weather` lower-cases a description. It then picks the first
  keyword of a fixed list that occurs in it (clear, few, scattered, broken, shower, rain,
  thunder, snow, mist, fog, wind), or falls back to `unknown`.

The canvas is the class `Gfx.Canvas`. Its only state is `trace`, the sequence of primitive calls
it has received. Each primitive appends one `Cmd`: `drawPixel`, `drawFastHLine`,
`drawFastVLine`, `drawLine`, `drawCircle` or `drawRoundRect`.

Every helper and renderer is a method that `modifies` the canvas. Its postcondition says it
appends exactly a specification function of its arguments: `RectDither`, `CircleDither`,
`RoundRectDither`, `Thick`, `ClearIcon` or `FewIcon`. The helpers' loop invariants tie the
partial trace to a prefix of that function. What the source promises is proved as lemmas about
those functions:

- the exact set of painted pixels;
- row-major order, with no pixel painted twice;
- how many strokes are drawn, and at which offsets;
- the 50 × 50 bounding box.

The selector is a pure function `Selector.Select` returning an `Icon`. It is proved equal to a
first-match rule over the keyword table, from which the priority and fallback lemmas follow. The
C++ parameter types are stated as preconditions:

- `int16_t` coordinates and sizes;
- `uint8_t` step and thickness (`1 <= step <= 255`, `0 <= thickness <= 255`), with the source's
  default value 2 as a default parameter of each helper method.

Files:

- `gfx.dfy`: the canvas and row-major order.
- `dither.dfy`: the dither fills.
- `thickline.dfy`: the thick strokes and the `int8_t` counter as written.
- `icons.dfy`: the two renderers and the bounding box.
- `selector.dfy`: the selector.
- `selector_examples.dfy`: worked descriptions.

## Model

| member | source | states |
|---|---|---|
| Dither.RowDitherFacts | IconsMono.h:59-62 | One pass of the inner loop on row `py` paints exactly the stippled pixels of `[x, x+w)` on that row, left to right. |
| Dither.RectDitherExact | IconsMono.h:56-65 | `fillRectDither` paints `Pixel(px, py)` if and only if `x <= px < x+w`, `y <= py < y+h` and `(px + py) % step == 0`, in strictly row-major order, so no pixel is painted twice. |
| Dither.RectDitherOnce | IconsMono.h:58-62 | No two positions of the rectangle's trace hold the same pixel (by `Gfx.RowMajorDistinct` from the row-major order). |
| Dither.RectDitherEmpty | IconsMono.h:58-59 | A width or height `<= 0` paints nothing (half-open bounds). |
| Dither.FillRectDither | IconsMono.h:56-65 | The two nested loops append exactly `RectDither(x, y, w, h, step)` to the canvas trace and change nothing else about the canvas. |
| Dither.CircleRowSound | IconsMono.h:76-82 | Every pixel the inner circle loop paints on local row `yy` is on row `cy + yy`, in the scanned columns, inside the disc `dx² + dy² <= r²`, and stippled in global coordinates. |
| Dither.CircleRowComplete | IconsMono.h:76-82 | Every stippled disc pixel of the scanned columns of local row `yy` is painted. |
| Dither.CircleRowOrdered | IconsMono.h:76-82 | One local row is painted strictly left to right. |
| Dither.CircleRowsSound | IconsMono.h:75-85 | Every pixel of the first `n` local rows lies in those rows, inside the disc, and is stippled. |
| Dither.CircleRowsComplete | IconsMono.h:75-85 | Every stippled disc pixel of the first `n` local rows is painted. |
| Dither.CircleRowsOrdered | IconsMono.h:75-85 | The first `n` local rows are painted in strictly row-major order. |
| Dither.SquareGrows | IconsMono.h:77 | For `0 <= a < b`, `a² < b²`: the squared-distance test is monotone in each offset. |
| Dither.DiscInSquare | IconsMono.h:75-77 | A point with `dx² + dy² <= r²` has `-r <= dx, dy <= r`, so the `[-r, r]` square scan misses no disc pixel. |
| Dither.CircleDitherExact | IconsMono.h:72-86 | `fillCircleDither` paints `Pixel(px, py)` if and only if `r >= 0`, `(px-cx)² + (py-cy)² <= r²` and `(px + py) % step == 0`, using the global phase. Pixels come in strictly row-major order, all within `[cx-r, cx+r] × [cy-r, cy+r]`. A negative radius paints nothing. |
| Dither.CircleDitherOnce | IconsMono.h:75-82 | No two positions of the disc's trace hold the same pixel (by `Gfx.RowMajorDistinct` from the row-major order). |
| Dither.FillCircleDither | IconsMono.h:72-86 | For a radius whose `int16_t` counters can reach `r + 1`, the nested loops with the `xx * xx + yy * yy <= r2` test append exactly `CircleDither(cx, cy, r, step)` to the trace, with `r2` widened (see Findings). |
| Dither.ToInt16 | IconsMono.h:74 | Conversion to `int16_t` yields a value in `[-32768, 32767]` congruent to its argument modulo 65536. |
| Dither.AsWrittenRadiusSquare | IconsMono.h:74-77 | For `182 <= r <= 255`, the `int16_t` `r2` is `r * r - 65536 < 0`, so no offset passes the disc test, although `(0, 0)` is in the disc: the loops paint nothing. |
| Dither.SmallRadiusAgrees | IconsMono.h:74-77 | For every radius from -181 to 181, `r * r` fits the `int16_t` `r2` and the disc test as written is the intended one, so the source and `Dither.FillCircleDither` differ only from a radius of magnitude 182 on. |
| Dither.ToInt16InRange | IconsMono.h:74 | A value that `int16_t` can hold converts to itself. |
| Dither.CentreIsPainted | IconsMono.h:72-86 | With `r2` kept wide, the centre of a disc of any radius `r >= 0` is painted whenever its stipple test passes. |
| Dither.RoundRectDitherExact | IconsMono.h:93-98 | `fillRoundRectDither` emits the `fillRectDither` pixels for `(x, y, w, h, step)`, then exactly one `RoundRect(x, y, w, h, r)` as its last command, and nothing else. |
| Dither.FillRoundRectDither | IconsMono.h:93-98 | The fill followed by the outline appends exactly `RoundRectDither(x, y, w, h, r, step)`. |
| ThickLine.StrokesShape | IconsMono.h:113-114 | The strokes for the offsets `lo .. hi` number `hi - lo + 1`, and the `i`-th one is drawn at offset `lo + i`. |
| ThickLine.ThickShape | IconsMono.h:112-114 | A thick stroke is exactly `2 * (thickness / 2) + 1` unit strokes, the `i`-th at offset `i - thickness / 2`, so the offsets run `-off .. off` in increasing order. |
| ThickLine.ThinIsPrimitive | IconsMono.h:112-114 | Thickness 0 or 1 draws the single primitive call on the centre line. |
| ThickLine.DefaultIsThree | IconsMono.h:111-114 | The default thickness 2 draws three strokes, at offsets -1, 0 and 1. |
| ThickLine.ThickHMovesOnlyY | IconsMono.h:114 | Every stroke of `drawThickH` is `HLine(x1, y + dy, x2 - x1)` with `-off <= dy <= off`. |
| ThickLine.ThickVMovesOnlyX | IconsMono.h:124 | Every stroke of `drawThickV` is `VLine(x + dx, y1, y2 - y1)` with `-off <= dx <= off`. |
| ThickLine.ThickDiagShiftsX | IconsMono.h:137 | Every stroke of `drawThickDiag` shifts both x ends by the same `k` in `[-off, off]` and keeps `y1` and `y2`. |
| ThickLine.DrawThickH | IconsMono.h:110-116 | The loop appends exactly `Thick(HStroke(x1, x2, y), thickness)` (counter widened, see Findings). |
| ThickLine.DrawThickV | IconsMono.h:120-126 | The loop appends exactly `Thick(VStroke(x, y1, y2), thickness)` (counter widened, see Findings). |
| ThickLine.DrawThickDiag | IconsMono.h:133-139 | The loop appends exactly `Thick(DStroke(x1, y1, x2, y2), thickness)` (counter widened, see Findings). |
| ThickLine.ToInt8 | IconsMono.h:112 | Conversion to `int8_t` yields a value in `[-128, 127]` congruent to its argument modulo 256. |
| ThickLine.AsWrittenCounter | IconsMono.h:113 | The `int8_t` loop counter after `n` increments from `-off` always lies in `[-128, 127]`. |
| ThickLine.AsWrittenNeverExits | IconsMono.h:112-113 | For thickness 254 or 255, `off` is 127 and every value the `int8_t` counter takes passes the guard `dy <= off`: the loop never ends. |
| ThickLine.AsWrittenCounts | IconsMono.h:112-113 | For `0 <= off <= 127`, the `int8_t` counter after `n` increments from `-off` is `-off + n`, as long as that stays at most 127. |
| ThickLine.AsWrittenAgrees | IconsMono.h:110-139 | For every thickness up to 253, the `int8_t` loop is the widened loop: the guard holds for exactly the first `2 * off + 1` counter values, `-off` to `off`, and fails on the next one. So the source and the corrected helpers differ only on the Findings inputs. |
| ThickLine.AsWrittenWraps | IconsMono.h:113 | After 254 increments the counter is 127; the next increment gives -128, which passes the guard again. |
| Icons.ClearArgs | IconsMono.h:151-172 | For an origin whose 50 × 50 box fits `int16_t`, every helper call of `draw_icon_clear` gets arguments its C++ parameter types hold. |
| Icons.DrawIconClear | IconsMono.h:151-173 | `draw_icon_clear` appends, in order: the disc dither, the two rings, the four straight rays and the four diagonal rays (`ClearIcon(x, y)`). |
| Icons.FewArgs | IconsMono.h:180-197 | For an origin whose box fits `int16_t`, every helper call of `draw_icon_few` gets arguments its C++ parameter types hold. |
| Icons.DrawIconFew | IconsMono.h:180-198 | `draw_icon_few` appends, in order: the sun dither and outline, the two thin rays, the cloud base, the two lobes and the highlight line (`FewIcon(x, y)`). |
| Icons.CircleDitherWithin | IconsMono.h:72-86 | A circle fill whose square `[c-r, c+r]` lies in the icon box paints only inside the box. |
| Icons.RoundRectDitherWithin | IconsMono.h:93-98 | A rounded-rectangle fill whose corners lie in the box emits only commands inside the box. |
| Icons.ThickWithin | IconsMono.h:110-139 | A thick stroke whose two outermost unit strokes (offsets `±off`) lie in the box lies in the box entirely. |
| Icons.ClearDiscWithinBox | IconsMono.h:155-158 | The sun body and its two rings lie in the box. |
| Icons.ClearStraightRaysWithinBox | IconsMono.h:160-166 | The vertical and horizontal rays, with their ±1 offsets, lie in the box. |
| Icons.ClearDiagonalRaysWithinBox | IconsMono.h:168-172 | The diagonal rays, with their ±1 offsets, lie in the box. |
| Icons.ClearWithinBox | IconsMono.h:151-173 | Every command of `draw_icon_clear` lies within `[x, x+50) × [y, y+50)` (the promise of line 20). |
| Icons.FewSunWithinBox | IconsMono.h:181-188 | The sun of `draw_icon_few` and its rays lie in the box. |
| Icons.FewCloudBaseWithinBox | IconsMono.h:190-194 | The cloud base and its left lobe lie in the box. |
| Icons.FewCloudTopWithinBox | IconsMono.h:195-197 | The right lobe and the highlight line lie in the box. |
| Icons.FewWithinBox | IconsMono.h:180-198 | Every command of `draw_icon_few` lies within `[x, x+50) × [y, y+50)` (the promise of line 20). |
| Selector.Lower | IconsMono.h:224-225 | Lower-casing keeps the length and maps every character by ASCII `tolower`. |
| Selector.IndexFrom | IconsMono.h:227 | The result is -1 or the first index at or after `from` where the keyword matches. |
| Selector.IndexOf | IconsMono.h:227 | `indexOf(k) >= 0` if and only if `k` occurs in the text, and a non-negative result is the first occurrence. |
| Selector.Select | IconsMono.h:224-239 | Lower-cases the description and answers by the eleven `indexOf(k) >= 0` tests in source order, else `Unknown`; an answer other than `Unknown` is an icon whose keyword occurs in the lower-cased description. |
| Selector.KeywordOfTable | IconsMono.h:227-237 | Each entry of the keyword table pairs an icon with the keyword that the source tests for it. |
| Selector.SelectIsFirstMatch | IconsMono.h:224-239 | The if-chain equals the reference rule: the icon of the first keyword-table entry occurring in the lower-cased description, else `Unknown`. |
| Selector.FirstMatchPriority | IconsMono.h:227-237 | For a table of distinct icons, the first-match rule answers entry `i`'s icon if and only if entry `i` occurs and no earlier entry does. |
| Selector.FirstMatchUnknown | IconsMono.h:237-239 | For a table of distinct icons, the first-match rule answers `Unknown` if and only if no entry occurs. |
| Selector.KeywordsDistinct | IconsMono.h:227-237 | The eleven keywords name eleven different renderers, none of them the fallback. |
| Selector.SelectPriority | IconsMono.h:227-237 | `Select` answers keyword `i`'s icon if and only if keyword `i` occurs in the lower-cased description and no earlier keyword does. |
| Selector.SelectFallback | IconsMono.h:237-239 | `Select` answers `Unknown` if and only if no keyword occurs. |
| Selector.LowerIdempotent | IconsMono.h:225 | Lower-casing twice is lower-casing once. |
| Selector.SameLowerSameIcon | IconsMono.h:224-227 | Two descriptions with the same lower-cased copy select the same icon: the decision reads the description only after `toLowerCase`. |
| Selector.SelectIgnoresCase | IconsMono.h:224-227 | Descriptions equal after lower-casing select the same icon, and a description selects the same icon as its lower-cased copy. |
| SelectorExamples.ScatteredClouds | IconsMono.h:227-229 | "scattered clouds" selects scattered, although every letter of "clear" occurs in it. |
| SelectorExamples.RainBeforeThunder | IconsMono.h:232-233 | "light rain and thunderstorm" contains "thunder" yet selects rain, because rain is checked first. |
| SelectorExamples.ShowerBeforeRain | IconsMono.h:231-232 | "shower rain" contains "rain" yet selects shower. |
| SelectorExamples.NoKeywordIsUnknown | IconsMono.h:227-239 | "supercell derecho" contains no keyword and selects the fallback. |
| SelectorExamples.UpperAndLowerAgree | IconsMono.h:224-227 | "CLEAR SKY" and "clear sky" both select clear. |

## Left out

- The real canvas: pixel buffer, clipping, panel driver, and how `drawLine`, `drawCircle` and `drawRoundRect` rasterise. That code belongs to the graphics library, not this header. The canvas is only the ordered record of calls it receives, and extents are taken from call arguments: a fast line of length `w` ends at `x + w - 1`; a circle spans `[c - r, c + r]`; a rounded rectangle spans its outer corners.
- `ICON_COLOR` and the other build-time macros (IconsMono.h:33-38). The colour is a constant, so `Cmd` does not record it.
- The renderers `draw_icon_scattered`, `draw_icon_broken`, `draw_icon_shower`, `draw_icon_rain`, `draw_icon_thunder`, `draw_icon_snow`, `draw_icon_mist`, `draw_icon_fog`, `draw_icon_wind` and `draw_icon_unknown`. The header names them (lines 229-239) but does not define them, so they appear only as `Icon` values.
- The dispatch step of `draw_icon_weather`, the calls into the renderers. Ten of them are not defined, so only the decision is modelled, as `Selector.Select`.
- The internals of Arduino's `String`. `toLowerCase` is ASCII lower-casing and `indexOf(k) >= 0` is substring containment. Every keyword is non-empty, so the empty-needle case never arises.
- Integer wrap-around of the C++ `int16_t` parameters and counters. Preconditions keep those values in range instead:
  - `Dither.FillRectDither`: requires `x + w <= 32767` for a positive width and height, and `y + h <= 32767` for a positive height. Beyond that the `int16_t` counter would wrap before reaching the bound.
  - `Dither.FillCircleDither`: requires `-32767 <= r < 32767`, so that the `int16_t` counters `yy` and `xx` can start at `-r` and reach `r + 1`. At `r = 32767`, `++yy` would wrap from 32767 to -32768 and the loops would never end. It also requires `int16_t` values for `cx ± r` and `cy ± r`, since outside that the pixel coordinates would be truncated. The `int16_t` `r2` is a finding instead.
  - `Icons.DrawIconClear` and `Icons.DrawIconFew`: require their whole 50 × 50 box to have `int16_t` coordinates.
- C++ `int` is taken to have at least 32 bits. The `int` intermediates are then never out of range: `xx + yy` (IconsMono.h:60), `xx * xx + yy * yy` and `px + py` (lines 77-80), and the renderers' `x + 25`, `x + 14` and `x + 30` (lines 152-153, 181-182, 190-191). On a target with a 16-bit `int` these can overflow for values the preconditions admit, and the model does not capture that.
- A step of 0 (a modulo by zero) is excluded by `step >= 1`. The source accepts any non-zero `uint8_t` step, so the model allows step 1 too.
- The approximate grey level `1/step` of a large dithered area is not stated. Only the exact painted set is.
- C++'s truncating `%` is not modelled separately. Only the `== 0` test is used, and a zero remainder means divisibility under both C++'s and Dafny's rules.
- The code checks rain before thunder, so "light rain and thunderstorm" selects rain (`SelectorExamples.RainBeforeThunder`).

## Findings

| source | as written | input that shows it | evidently intended | confidence | as-written member | corrected member |
|---|---|---|---|---|---|---|
| IconsMono.h:112-113 | `off` and the loop counter `dy` of `drawThickH` are `int8_t`, and the loop runs while `dy <= off` | `thickness = 254` (or 255): `off = 127`, every `int8_t` value is `<= 127`, and `++dy` wraps from 127 to -128 | draw the `2 * off + 1 = 255` strokes at offsets -127 .. 127, then return | not executed | ThickLine.AsWrittenNeverExits | ThickLine.DrawThickH |
| IconsMono.h:122-123 | the same `int8_t` counter `dx` in `drawThickV` | `thickness = 254` | the same 255 strokes, then return | not executed | ThickLine.AsWrittenWraps | ThickLine.DrawThickV |
| IconsMono.h:135-136 | the same `int8_t` counter `k` in `drawThickDiag` | `thickness = 255` | the same 255 strokes, then return | not executed | ThickLine.AsWrittenNeverExits | ThickLine.DrawThickDiag |
| IconsMono.h:74-77 | `r2 = r * r` is stored in an `int16_t` and the disc test is `xx * xx + yy * yy <= r2` | `r = 182` (an `int16_t` radius): `r * r = 33124` wraps to `r2 = -32412`, no offset passes, and `fillCircleDither` paints nothing | paint the stippled pixels of the disc of radius 182 | not executed | Dither.AsWrittenRadiusSquare | Dither.FillCircleDither |

The corrected thick-stroke methods use an unbounded counter. `ThickLine.ThickShape` proves that they draw exactly `2 * (thickness / 2) + 1` strokes at offsets `-off .. off` for every `uint8_t` thickness. `Dither.SmallRadiusAgrees` shows that the `int16_t` `r2` is harmless up to `|r| = 181`. The corrected `Dither.FillCircleDither` keeps `r2` wide; `Dither.CircleDitherExact` and `Dither.CentreIsPainted` state what it paints for every radius.
