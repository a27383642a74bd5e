# FiftyShades in Dafny

FiftyShades is an Android library that draws rounded rectangles with a
shadow. The shadow is either dropped outside the rectangle or cast inside
it. This project models the library's core and proves properties of the
model:

- **The value classes.** `ShadowSpec` holds the offset, blur radius and
  colour of a shadow. `RectSpec` holds fill colour, corner radius and
  stroke. Both have checking constructors, `equals`, `toString` and
  `inferPaddings`.
- **The numeric helpers** in `Numbers`:
  - Java's `ceil` of a float, including its rounding of negative values
    and its overflow;
  - the argument checks;
  - the little-endian `putLe`;
  - the `#AARRGGBB` colour text.
- **`CornerSet`.** Its 13 variants are the four corners, the four edges,
  horizontal, vertical, all, and the two inside-out `BETWEEN_*` variants.
  The model covers:
  - the side masks;
  - the tile measurement;
  - the layout of the shape in the tile;
  - the Android nine-patch chunk each variant writes, decoded back byte by
    byte;
  - the inset each variant is wrapped in.
- **`RectWithShadow`.** This is the factory of nine-patches and inset
  drawables. It rejects paddings that eat into the corner, measures the
  tile, and draws the shape once or, inside out, as two rectangles.
- **The two shadow drawables, `RectShadow` and `RectInnerShadow`.** The
  model covers:
  - their shared `ShadowState` and the corner radius bounded by their size;
  - the property setters `i`/`f`/`shadow`;
  - the invalidation hooks, and the caches of gradients and paths those
    hooks mark stale;
  - `setBounds`, `draw` and `mutate`.
- **`RectItemsWithShadows`.** This is the list decoration. The model covers:
  - its per-view property storage `get_`/`set_`, with the sentinel specs
    that `fix` replaces;
  - `normalize`, which marks the drawables still in use with a 64-bit mask;
  - the layers drawn for each child.
- **`ViewDrawablePool`.** It maps a view's identity to its drawable. It
  scraps unmarked drawables and reuses scrapped ones.

Java's 32-bit `int` is modelled as the subset type `Int`:

- `Wrap32` writes out wrap-around;
- `JavaDiv` divides truncating toward zero.

A Java `float` is the datatype `Float`. It is an exact real (`Num`), `NaN`
or an infinity. Java's `==`, `Float.compare` and `<` on floats are written
out as `FEq`, `FSame` and `FLess`. An Android `Rect` is a datatype, since
the library never changes one after building it. A `RectF` is a class,
since `drawRR` and `buildCornerPaths` change theirs in place. Byte arrays
are Dafny `array<Byte>`.

Some concrete behaviour of the code, each proved as a lemma:

- **`ceil`.** It rounds a negative fraction away from zero, to the floor,
  not toward positive infinity (`CeilRoundsNegativesAwayFromZero`).
- **Overflow.** `inferPaddings` adds with `int` arithmetic. An offset of
  2e9 with a blur of 2e8 wraps the right padding to -2094967296, so the
  simple `createPatch` rejects that shadow as eating the corner
  (`ShadowPaddingsOverflowExample`, `OverflowingPaddingsEatCorners`).
- **Paddings.** `inferPaddings` for a shadow with offset (2, 3) and blur 20
  gives left, top, right and bottom paddings of 20, 20, 22 and 23. The
  full tile of that shadow with a corner of 20 is 123 × 124 pixels
  (`ShadowPaddingsExample`, `MeasureAllExample`).
- **Variants.** `CornerSet` has 13 variants, two of them inside out.

## Model

| member | source | states |
|---|---|---|
| Numbers.Ceil | lib/src/main/java/net/aquadc/fiftyshades/Numbers.java:7-12 | For a finite value in the int range: a positive value rounds up to the next integer, a negative value rounds down, and the result is within one of the value. Above MAX_VALUE: up to 2^31 gives MAX_VALUE, beyond it wraps to MIN_VALUE, as does +Infinity. Below MIN_VALUE, and -Infinity, wrap to MAX_VALUE. NaN gives 0 |
| Numbers.Widen | lib/src/main/java/net/aquadc/fiftyshades/Numbers.java:9-10 | The int operand of the float comparison as a float: MAX_VALUE becomes 2^31, every smaller int itself |
| Numbers.CeilOfIntegral | lib/src/main/java/net/aquadc/fiftyshades/Numbers.java:7-12 | An integral float in the int range is returned unchanged |
| Numbers.CeilRoundsNegativesAwayFromZero | lib/src/main/java/net/aquadc/fiftyshades/Numbers.java:10 | A negative fraction is rounded down, away from zero: -1.5 gives -2 and -0.25 gives -1, while 1.5 gives 2 |
| Numbers.CeilIsOdd | lib/src/main/java/net/aquadc/fiftyshades/Numbers.java:7-12 | ceil(-f) == -ceil(f) for finite values inside the int range |
| Numbers.CeilWrapsAboveIntRange | lib/src/main/java/net/aquadc/fiftyshades/Numbers.java:8-9 | A value above 2^31 saturates the cast to MAX_VALUE, and the increment then wraps it to MIN_VALUE; 2^31 itself gives MAX_VALUE, because MAX_VALUE widens to 2^31 in the comparison |
| Numbers.MaxCeil | lib/src/main/java/net/aquadc/fiftyshades/RectWithShadow.java:107 | max(cornerRadius, ceil(strokeWidth)) is at least both operands and equal to one of them |
| Numbers.RequireFinite | lib/src/main/java/net/aquadc/fiftyshades/Numbers.java:14-18 | Fails with "must be finite" exactly for NaN and infinities, otherwise returns the value |
| Numbers.RequireNonNegativeF | lib/src/main/java/net/aquadc/fiftyshades/Numbers.java:20-24 | Fails with "must be finite" first, then with "must be >= 0" for a negative value; passes exactly the finite non-negative values |
| Numbers.RequireNonNegativeI | lib/src/main/java/net/aquadc/fiftyshades/Numbers.java:25-28 | Fails with "must be >= 0" exactly for negative ints |
| Numbers.Le | lib/src/main/java/net/aquadc/fiftyshades/Numbers.java:30-36 | Four little-endian bytes whose unsigned value is the int modulo 2^32, read back as the same signed int |
| Numbers.PutLe | lib/src/main/java/net/aquadc/fiftyshades/Numbers.java:30-36 | Writes exactly bytes at..at+3 of the array with the little-endian encoding of the value; every other byte is unchanged |
| Numbers.AppendColor | lib/src/main/java/net/aquadc/fiftyshades/Numbers.java:39-47 | Appends '#' and 6 upper-case hex digits for an opaque colour, 8 otherwise; the prefix is kept, and the digits parse back to the colour, with the alpha FF put back when the colour is opaque |
| Specs.AppendShadowColor | lib/src/main/java/net/aquadc/fiftyshades/ShadowSpec.java:75-83 | The digit-by-digit appending writes exactly the text `AppendColor` specifies |
| Specs.CheckShadow | lib/src/main/java/net/aquadc/fiftyshades/ShadowSpec.java:25-28 | Passes exactly when dx and dy are finite and radius is finite and non-negative; otherwise fails with the first failing check, in source order |
| Specs.ShadowSpec.constructor | lib/src/main/java/net/aquadc/fiftyshades/ShadowSpec.java:25-33 | On accepted arguments, the spec holds exactly them |
| Specs.ShadowSpec.New | lib/src/main/java/net/aquadc/fiftyshades/ShadowSpec.java:25-33 | Yields a fresh spec holding the arguments iff the checks pass, else the first check's exception |
| Specs.ShadowSpec.Copy | lib/src/main/java/net/aquadc/fiftyshades/Shadow.java:160 | The copy holds the same four values as the original |
| Specs.ShadowPaddings | lib/src/main/java/net/aquadc/fiftyshades/ShadowSpec.java:40-47 | The side opposite the offset direction gets exactly ceil(radius). While ceil(radius) + \|ceil(d)\| fits an int, every side is at least ceil(radius) and each opposite pair sums to 2·ceil(radius) + \|ceil(d)\|. Beyond that the widened side is the sum minus 2^32, a negative int |
| Specs.ShadowPaddingsOverflowExample | lib/src/main/java/net/aquadc/fiftyshades/ShadowSpec.java:44 | Offset (2e9, 0) with blur 2e8 gives paddings (2e8, 2e8, -2094967296, 2e8) |
| Specs.ShadowSpec.InferPaddings | lib/src/main/java/net/aquadc/fiftyshades/ShadowSpec.java:40-47 | The step-by-step computation, with its int sums wrapping, gives exactly `ShadowPaddings` |
| Specs.ShadowPaddingsExample | lib/src/main/java/net/aquadc/fiftyshades/ShadowSpec.java:40-47 | Offset (2,3) with blur 20 gives paddings (20,20,22,23) |
| Specs.ShadowSpec.Equals | lib/src/main/java/net/aquadc/fiftyshades/ShadowSpec.java:49-57 | Equal exactly when the four values are equal, floats compared as Float.compare does |
| Specs.ShadowEqualsIsEquivalence | lib/src/main/java/net/aquadc/fiftyshades/ShadowSpec.java:49-57 | `equals` is reflexive, symmetric and transitive, NaN included |
| Specs.ShadowSpec.SetFrom | lib/src/main/java/net/aquadc/fiftyshades/Shadow.java:119-123 | Copies the other spec's values and reports bit 0/1/2/3 set exactly when dx/dy/radius/colour changed |
| Specs.ShadowSpec.SetDx | lib/src/main/java/net/aquadc/fiftyshades/Shadow.java:95 | Sets dx, keeps the other three values |
| Specs.ShadowSpec.SetDy | lib/src/main/java/net/aquadc/fiftyshades/Shadow.java:99 | Sets dy, keeps the other three values |
| Specs.ShadowSpec.SetRadius | lib/src/main/java/net/aquadc/fiftyshades/Shadow.java:103 | Sets the blur radius, keeps the other three values |
| Specs.CheckRect | lib/src/main/java/net/aquadc/fiftyshades/RectSpec.java:28-33 | Passes exactly for a non-negative corner radius and a finite non-negative stroke width, else the first failing check |
| Specs.RectSpec.constructor | lib/src/main/java/net/aquadc/fiftyshades/RectSpec.java:28-33 | On accepted arguments, the spec holds exactly them |
| Specs.RectSpec.New | lib/src/main/java/net/aquadc/fiftyshades/RectSpec.java:28-33 | A fresh spec iff the checks pass, else the first check's exception |
| Specs.RectSpec.NewNoStroke | lib/src/main/java/net/aquadc/fiftyshades/RectSpec.java:40-42 | Fails only for a negative corner radius; otherwise a transparent stroke of width 0, so `hasStroke()` is false |
| Specs.RectSpec.Equals | lib/src/main/java/net/aquadc/fiftyshades/RectSpec.java:52-60 | Equal exactly when the four values are equal, the width compared as Float.compare does |
| Specs.RectEqualsIsEquivalence | lib/src/main/java/net/aquadc/fiftyshades/RectSpec.java:52-60 | `equals` is reflexive, symmetric and transitive |
| Specs.StrokeColorStep | lib/src/main/java/net/aquadc/fiftyshades/RectSpec.java:71 | The stroke-colour step keeps the text so far, adds ", strokeColor=#..." only for a non-transparent colour, and adds 7 or 9 characters of colour |
| Specs.RectTextOmissions | lib/src/main/java/net/aquadc/fiftyshades/RectSpec.java:67-74 | `toString` starts with the fixed head and ends with ')'; a transparent stroke of width 0 leaves nothing else; a visible stroke colour follows the head; a non-zero width ends the text; the exact length |
| Shadows.ShadowState.constructor | lib/src/main/java/net/aquadc/fiftyshades/Shadow.java:169-173 | The state holds the corner radius, the spec and the inner flag |
| Shadows.BoundedCornerRadius | lib/src/main/java/net/aquadc/fiftyshades/Shadow.java:147-151 | Never more than the corner radius; fits twice into both sides of non-empty bounds; is either the radius or half the smaller side (truncated) |
| Shadows.SqueezedCornerRadius | lib/src/main/java/net/aquadc/fiftyshades/Shadow.java:150 | On inverted bounds the truncating division gives -1 for a width of -3 |
| Shadows.WithoutAlpha | lib/src/main/java/net/aquadc/fiftyshades/RectShadow.java:212 | The colour's RGB with alpha 0; adding back the alpha byte gives the colour |
| Shadows.WithoutAlphaTwice | lib/src/main/java/net/aquadc/fiftyshades/RectInnerShadow.java:194 | Dropping the alpha is idempotent |
| Shadows.ChangeHooks | lib/src/main/java/net/aquadc/fiftyshades/Shadow.java:118-126 | The offset, radius and colour hooks are due exactly when the offset, blur radius or colour differ; none when the shadows are equal; never the corner-radius hook |
| Shadows.MaskFiresChangeHooks | lib/src/main/java/net/aquadc/fiftyshades/Shadow.java:119-123 | The hooks fired from the `setFrom` change mask are exactly the hooks due for the change of values, in the same order |
| Corners.Pack | lib/src/main/java/net/aquadc/fiftyshades/CornerSet.java:68-70 | The eight flags pack into one byte |
| Corners.PackBits | lib/src/main/java/net/aquadc/fiftyshades/CornerSet.java:68-70 | Bit k of the packed byte is flag k |
| Corners.SideMasks | lib/src/main/java/net/aquadc/fiftyshades/CornerSet.java:68-75 | ANY_LEFT/RIGHT/TOP/BOTTOM test exactly the three flags on that side |
| Corners.VariantSides | lib/src/main/java/net/aquadc/fiftyshades/CornerSet.java:22-75 | For each of the 13 variants, which sides it touches (e.g. TOP_LEFT touches left and top only, ALL and BETWEEN_* all four) |
| Corners.DPos | lib/src/main/java/net/aquadc/fiftyshades/CornerSet.java:87 | The spread toward the end side, max(0, ceil(d+r)), is never negative |
| Corners.DNeg | lib/src/main/java/net/aquadc/fiftyshades/CornerSet.java:87 | The spread toward the start side, min(0, ceil(d-r)), is never positive |
| Corners.Measure | lib/src/main/java/net/aquadc/fiftyshades/CornerSet.java:86-89 | With non-negative corner and paddings the tile side is at least 1 pixel, and exactly 1 (the stretchable pixel) when there is neither a start nor an end |
| Corners.MeasureMonotone | lib/src/main/java/net/aquadc/fiftyshades/CornerSet.java:86-89 | A larger corner or padding never makes the tile smaller, and the padding of an absent side does not count |
| Corners.MeasureAllExample | lib/src/main/java/net/aquadc/fiftyshades/CornerSet.java:76-89 | ALL with offset (2,3), blur 20 and corner 20 measures 123 × 124 |
| Corners.ShapeBoxFits | lib/src/main/java/net/aquadc/fiftyshades/CornerSet.java:91-111 | Along each axis that is not turned inside out the shape is 2·corner + spread + 1 long, starts at the padding on a touched side or hides its corner outside the tile on the other, and ends the padding short of the measured tile; a BETWEEN_* shape is inverted along its stretch axis, its two edges the two paddings plus one apart |
| Corners.Layout | lib/src/main/java/net/aquadc/fiftyshades/CornerSet.java:91-111 | Leaves the RectF at exactly `ShapeBox` |
| Corners.Place | lib/src/main/java/net/aquadc/fiftyshades/CornerSet.java:94-102 | Sets the shape's size and offsets it by the padding or the negative corner |
| Corners.TurnInsideOut | lib/src/main/java/net/aquadc/fiftyshades/CornerSet.java:103-109 | Rewrites exactly the bottom/top or right/left pair for the BETWEEN_* variants and nothing else |
| Corners.SlotColors | lib/src/main/java/net/aquadc/fiftyshades/CornerSet.java:167-168 | Colour slot j is the colour when bit j is set, and 1 (no colour) otherwise |
| Corners.NewChunk | lib/src/main/java/net/aquadc/fiftyshades/CornerSet.java:149-166 | The header, paddings and divs written, colour slots still zero |
| Corners.WriteChunk | lib/src/main/java/net/aquadc/fiftyshades/CornerSet.java:149-170 | The array holds exactly `ChunkBytes` of the variant's paddings, the divs and the slot colours |
| Corners.ChunkReadsBack | lib/src/main/java/net/aquadc/fiftyshades/CornerSet.java:149-170 | Decoding the chunk gives version 1, the paddings only on the sides the variant touches, the divs [x, x+1] and [y, y+1], and slot j coloured exactly when bit j is set |
| Corners.ChunkPlan | lib/src/main/java/net/aquadc/fiftyshades/CornerSet.java:116-147 | The colour count is 3, 4, 6 or 9, and the colour is the background for BETWEEN_* and the fill otherwise |
| Corners.Chunk | lib/src/main/java/net/aquadc/fiftyshades/CornerSet.java:112-148 | The array is the chunk bytes of `ChunkPlan` |
| Corners.ChunkPlanMatchesGrid | lib/src/main/java/net/aquadc/fiftyshades/CornerSet.java:112-148 | The divs lie inside the measured tile and cut it into the variant's columns and rows, and there is one colour slot per cell |
| Corners.ChunkPlanFillsStretchCell | lib/src/main/java/net/aquadc/fiftyshades/CornerSet.java:112-148 | For an ordinary variant, the one coloured slot is the cell at the divs, the one that stretches |
| Corners.ChunkPlanFillsStretchLine | lib/src/main/java/net/aquadc/fiftyshades/CornerSet.java:139-144 | For BETWEEN_* the coloured slots are the whole stretching row or column |
| Corners.Inset | lib/src/main/java/net/aquadc/fiftyshades/CornerSet.java:172-181 | Insets by minus the header paddings, but never along the stretch axis of a BETWEEN_* variant |
| NinePatchChunk.ChunkBytes | lib/src/main/java/net/aquadc/fiftyshades/CornerSet.java:149-170 | The byte layout is 32 header bytes, 16 div bytes and 4 per colour |
| NinePatchChunk.ChunkRoundTrip | lib/src/main/java/net/aquadc/fiftyshades/CornerSet.java:149-170 | Decoding the bytes gives version 1, zero offsets, and the paddings, divs and colours, each as the 32-bit value Java wrote |
| InnerShadows.HookStaleness | lib/src/main/java/net/aquadc/fiftyshades/RectInnerShadow.java:60-76 | Each hook marks exactly its own artifacts stale and keeps every other cache |
| InnerShadows.HookAllStaleness | lib/src/main/java/net/aquadc/fiftyshades/RectInnerShadow.java:60-76 | A run of hooks leaves stale exactly what was stale plus what any of them clears |
| InnerShadows.CornerShaderFor | lib/src/main/java/net/aquadc/fiftyshades/RectInnerShadow.java:189-202 | Three stops when the blur is smaller than the corner, two otherwise; it fades from transparent to the colour and only fades it |
| InnerShadows.EdgeShadersFor | lib/src/main/java/net/aquadc/fiftyshades/RectInnerShadow.java:233-241 | Four gradients, each only fading the colour |
| InnerShadows.EdgeShadersMirror | lib/src/main/java/net/aquadc/fiftyshades/RectInnerShadow.java:233-241 | The right and bottom gradients run the left and top colours in reverse, across the same tile |
| InnerShadows.CornerTile | lib/src/main/java/net/aquadc/fiftyshades/RectInnerShadow.java:104-105 | While `2r` fits an int, the corner tile is the larger of twice the corner and twice ceil(blur). Beyond that the int product wraps: above MAX_VALUE it is `2r - 2^32`, which is negative |
| InnerShadows.CornerTileWrapsExample | lib/src/main/java/net/aquadc/fiftyshades/RectInnerShadow.java:104-105 | A blur of 2^30 over a corner of at most 2^30 makes `d` wrap to MIN_VALUE |
| InnerShadows.RectInnerShadow.constructor | lib/src/main/java/net/aquadc/fiftyshades/RectInnerShadow.java:26-28 | Shares the given state; empty bounds; all three artifacts stale |
| InnerShadows.RectInnerShadow.New | lib/src/main/java/net/aquadc/fiftyshades/RectInnerShadow.java:35-37 | Checks the shadow like ShadowSpec's constructor; on success, a fresh inner state holding the arguments |
| InnerShadows.RectInnerShadow.Invalidate | lib/src/main/java/net/aquadc/fiftyshades/RectInnerShadow.java:60-76 | Each hook changes the caches as `Hooked` describes and nothing else |
| InnerShadows.RectInnerShadow.I | lib/src/main/java/net/aquadc/fiftyshades/Shadow.java:50-67 | A changed negative corner radius is rejected; an unchanged value does nothing; a change stores it and fires exactly its hook |
| InnerShadows.RectInnerShadow.F | lib/src/main/java/net/aquadc/fiftyshades/Shadow.java:90-111 | A value different under float `!=` (so NaN always) is stored and fires the offset or radius hook; otherwise nothing changes |
| InnerShadows.RectInnerShadow.SetShadow | lib/src/main/java/net/aquadc/fiftyshades/Shadow.java:118-126 | Copies the spec and fires exactly `ChangeHooks` of the old and new values |
| InnerShadows.RectInnerShadow.FireHooks | lib/src/main/java/net/aquadc/fiftyshades/Shadow.java:120-123 | Fires the hooks of the change mask, in order |
| InnerShadows.RectInnerShadow.SetBounds | lib/src/main/java/net/aquadc/fiftyshades/RectInnerShadow.java:50-58 | Stores the bounds; fires the corner-radius hook exactly when the bounded corner radius changes |
| InnerShadows.RectInnerShadow.BuildCornerShader | lib/src/main/java/net/aquadc/fiftyshades/RectInnerShadow.java:189-202 | Caches exactly `CornerShaderFor`, filling the reused colour array |
| InnerShadows.RectInnerShadow.BuildCornerPaths | lib/src/main/java/net/aquadc/fiftyshades/RectInnerShadow.java:203-222 | After the four offsets, `arcBounds` is back on the shape's top-left corner, a corner-sized box at minus the rounded offset |
| InnerShadows.RectInnerShadow.BuildEdgeShaders | lib/src/main/java/net/aquadc/fiftyshades/RectInnerShadow.java:233-241 | All four slots hold `EdgeShadersFor` |
| InnerShadows.RectInnerShadow.DrawTile | lib/src/main/java/net/aquadc/fiftyshades/RectInnerShadow.java:102-109 | Rebuilds exactly the stale artifacts, for the corner tile, and keeps the fresh ones |
| InnerShadows.RectInnerShadow.Draw | lib/src/main/java/net/aquadc/fiftyshades/RectInnerShadow.java:85-99 | Draws iff the colour is visible and the bounds non-empty; drawing leaves nothing stale, with the artifacts of the bounded corner radius |
| InnerShadows.RectInnerShadow.Mutate | lib/src/main/java/net/aquadc/fiftyshades/Shadow.java:158-162 | A fresh state with a fresh copy of the spec, holding the same values |
| OuterShadows.ShadowDistance | lib/src/main/java/net/aquadc/fiftyshades/RectShadow.java:184-192 | At most the offset's length plus one, and never more than half the smaller side |
| OuterShadows.CornerShaderFor | lib/src/main/java/net/aquadc/fiftyshades/RectShadow.java:210-218 | Five stops that only fade the colour, full colour exactly at stops 2 and 3 |
| OuterShadows.EdgeShaderFor | lib/src/main/java/net/aquadc/fiftyshades/RectShadow.java:245-253 | Three stops: transparent, then the colour twice |
| OuterShadows.FrameFor | lib/src/main/java/net/aquadc/fiftyshades/RectShadow.java:158-178 | The drawn size is the bounds' size, clamped at 0 for squeezed bounds |
| OuterShadows.SqueezedOrigin | lib/src/main/java/net/aquadc/fiftyshades/RectShadow.java:166-169 | Squeezed bounds are drawn from their centre |
| OuterShadows.RectShadow.constructor | lib/src/main/java/net/aquadc/fiftyshades/RectShadow.java:30-32 | Shares the given state; no shaders yet; empty bounds |
| OuterShadows.RectShadow.New | lib/src/main/java/net/aquadc/fiftyshades/RectShadow.java:39-41 | Checks the shadow like ShadowSpec's constructor; on success, a fresh outer state holding the arguments |
| OuterShadows.RectShadow.I | lib/src/main/java/net/aquadc/fiftyshades/RectShadow.java:60-78 | A changed negative corner radius is rejected; a new corner radius clears the corner shader, a new colour both shaders; an unchanged value does nothing |
| OuterShadows.RectShadow.SetShadow | lib/src/main/java/net/aquadc/fiftyshades/RectShadow.java:80-87 | Copies the spec; clears both shaders exactly when the value changed |
| OuterShadows.RectShadow.F | lib/src/main/java/net/aquadc/fiftyshades/RectShadow.java:113-127 | Stores a value different under float `!=` and clears the shaders; otherwise nothing changes |
| OuterShadows.RectShadow.SetBounds | lib/src/main/java/net/aquadc/fiftyshades/RectShadow.java:131-140 | Stores the bounds; clears the edge shader exactly when the shadow distance changes, and the corner shader when the shadow distance or the bounded corner radius changes |
| OuterShadows.RectShadow.BuildCornerShader | lib/src/main/java/net/aquadc/fiftyshades/RectShadow.java:210-218 | Caches exactly `CornerShaderFor`, filling the reused colour array |
| OuterShadows.RectShadow.BuildEdgeShader | lib/src/main/java/net/aquadc/fiftyshades/RectShadow.java:245-253 | Caches exactly `EdgeShaderFor`, filling the reused colour array |
| OuterShadows.RectShadow.Draw | lib/src/main/java/net/aquadc/fiftyshades/RectShadow.java:158-178 | Draws nothing iff the colour is transparent; otherwise draws `FrameFor` with both shaders built for the current values |
| OuterShadows.RectShadow.Mutate | lib/src/main/java/net/aquadc/fiftyshades/RectShadow.java:264-268 | Rebuilds the state through the checking constructor: fails as it does, else a fresh state and spec with the same values |
| OuterShadows.NewDrawable | lib/src/main/java/net/aquadc/fiftyshades/Shadow.java:174-176 | An inner drawable exactly when the state is inner, sharing the state |
| Pool.UsedMarkFor | lib/src/main/java/net/aquadc/fiftyshades/ViewDrawablePool.java:13-17 | At most one bit: none iff the view has no drawable, else its drawable's index modulo 64 |
| Pool.ScrapAt | lib/src/main/java/net/aquadc/fiftyshades/ViewDrawablePool.java:28-31 | Moves entry `index` to the end of the scrap list and removes it from the mapping |
| Pool.ScrapUnmarked | lib/src/main/java/net/aquadc/fiftyshades/ViewDrawablePool.java:21-23 | The downward loop keeps exactly the marked entries among the first 64, in order, and scraps the others in reverse |
| Pool.ScrapLast | lib/src/main/java/net/aquadc/fiftyshades/ViewDrawablePool.java:24-26 | Scraps the last `count` entries, last first |
| Pool.ScrapUnused | lib/src/main/java/net/aquadc/fiftyshades/ViewDrawablePool.java:19-27 | The mapping keeps exactly the marked entries among the first 64; the scrap list gains the others |
| Pool.ScrapConserves | lib/src/main/java/net/aquadc/fiftyshades/ViewDrawablePool.java:19-31 | No drawable is lost or duplicated: kept plus scrap is the old mapping plus the old scrap, as multisets; at most 64 entries remain |
| Pool.ScrapKeepsMarked | lib/src/main/java/net/aquadc/fiftyshades/ViewDrawablePool.java:21-26 | An entry survives iff its index is below 64 and marked |
| Pool.UnsafeDrawableFor | lib/src/main/java/net/aquadc/fiftyshades/ViewDrawablePool.java:33-48 | Returns the view's drawable if mapped and changes nothing; otherwise takes the last scrap, or a new one when the scrap is empty, and maps it; other keys keep their drawables |
| Items.WithAlpha | lib/src/main/java/net/aquadc/fiftyshades/RectItemsWithShadows.java:154-156 | Keeps the RGB and scales the alpha byte by alpha/255 |
| Items.WithAlphaOpaque | lib/src/main/java/net/aquadc/fiftyshades/RectItemsWithShadows.java:154-156 | Alpha 255 leaves the colour unchanged |
| Items.WithAlphaTransparent | lib/src/main/java/net/aquadc/fiftyshades/RectItemsWithShadows.java:154-156 | Alpha 0 drops the colour's alpha |
| Items.FixRectProperties | lib/src/main/java/net/aquadc/fiftyshades/RectItemsWithShadows.java:131-136 | A spec without sentinels is unchanged; the all-sentinel spec becomes the default; fixing is idempotent and leaves no sentinel when the default has none |
| Items.FixShadowProperties | lib/src/main/java/net/aquadc/fiftyshades/RectItemsWithShadows.java:125-130 | The same five facts for shadow specs, NaN being the float sentinel |
| Items.RectItemsWithShadows.FixShadow | lib/src/main/java/net/aquadc/fiftyshades/RectItemsWithShadows.java:125-130 | The spec becomes `FixedShadow` of its old value and the decoration's shadow |
| Items.RectItemsWithShadows.FixRect | lib/src/main/java/net/aquadc/fiftyshades/RectItemsWithShadows.java:131-136 | The spec becomes `FixedRect` of its old value and the decoration's rect |
| Items.Get | lib/src/main/java/net/aquadc/fiftyshades/RectItemsWithShadows.java:167-189 | Int properties at 0, 1, 2 and 7, floats elsewhere; an untagged view reads the default spec |
| Items.GetUntagged | lib/src/main/java/net/aquadc/fiftyshades/RectItemsWithShadows.java:165-189 | An untagged view reads as transparent, square-cornered, stroke-less and shadowless |
| Items.WithRectField | lib/src/main/java/net/aquadc/fiftyshades/RectItemsWithShadows.java:194-198 | Replaces exactly field `at` of a rect |
| Items.WithShadowField | lib/src/main/java/net/aquadc/fiftyshades/RectItemsWithShadows.java:204-208 | Replaces exactly field `at` of a shadow |
| Items.Set | lib/src/main/java/net/aquadc/fiftyshades/RectItemsWithShadows.java:190-215 | The field reads back as the value; the other fields of that spec keep their values, an untagged view first getting a sentinel spec. The other spec (the shadow for a rect field, the rect for a shadow field) keeps its value, and no tag is dropped |
| Items.SetOnUntaggedThenFix | lib/src/main/java/net/aquadc/fiftyshades/RectItemsWithShadows.java:190-229 | After one set on an untagged view and `fix`, every other field takes the decoration's value |
| Items.InvalidRectSpec | lib/src/main/java/net/aquadc/fiftyshades/RectItemsWithShadows.java:216-222 | A fresh spec holding every sentinel |
| Items.InvalidShadowSpec | lib/src/main/java/net/aquadc/fiftyshades/RectItemsWithShadows.java:223-229 | A fresh spec holding every sentinel |
| Items.UsedMaskBounds | lib/src/main/java/net/aquadc/fiftyshades/RectItemsWithShadows.java:58-71 | At most one bit per child, and a bit is set iff some child's drawable sits at that index mod 64 |
| Items.ChildKeepsDrawable | lib/src/main/java/net/aquadc/fiftyshades/RectItemsWithShadows.java:57-73 | A child whose drawable is among the first 64 entries keeps it through the scrapping |
| Items.ItemLayers | lib/src/main/java/net/aquadc/fiftyshades/RectItemsWithShadows.java:74-124 | An outer shadow only in the outer pass, an inner one only in the inner pass, either iff the shadow colour is visible; fill and stroke iff the spec has them, each its spec colour with the alpha scaled by `getAlpha()` and its own RGB kept |
| Items.ShadowDrawnOnce | lib/src/main/java/net/aquadc/fiftyshades/RectItemsWithShadows.java:74-124 | A visible shadow is drawn in exactly one of the two passes |
| Items.RectItemsWithShadows.constructor | lib/src/main/java/net/aquadc/fiftyshades/RectItemsWithShadows.java:35-39 | Holds the specs, an empty pool, and a zero-corner shadow state of the given kind |
| Items.RectItemsWithShadows.Normalize | lib/src/main/java/net/aquadc/fiftyshades/RectItemsWithShadows.java:57-73 | Each child's tag becomes `fix` of its old value against the decoration's spec (a tag shared by several children is fixed once, to the same value), and exactly the marked drawables among the first 64 are kept, the rest scrapped |
| Items.RectItemsWithShadows.MarkChildren | lib/src/main/java/net/aquadc/fiftyshades/RectItemsWithShadows.java:59-71 | The loop turns each child's tag into `fix` of its old value, shared tags included, and collects exactly `UsedMask` |
| Items.RectItemsWithShadows.FixChild | lib/src/main/java/net/aquadc/fiftyshades/RectItemsWithShadows.java:62-66 | Fixes child `i`'s tags. The children before it and `i` itself then hold `fix` of their values from before the loop; later children hold that or their old value |
| Items.RectItemsWithShadows.FixTags | lib/src/main/java/net/aquadc/fiftyshades/RectItemsWithShadows.java:62-66 | Child `i`'s shadow and rect tags each become `fix` of their old value, and the earlier children stay fixed |
| Patches.RoundRectDraws | lib/src/main/java/net/aquadc/fiftyshades/RectWithShadow.java:139-164 | One draw for a proper box, two for an inverted one |
| Patches.DrawRR | lib/src/main/java/net/aquadc/fiftyshades/RectWithShadow.java:139-164 | Hands the canvas exactly `RoundRectDraws` and restores the bounds it changed |
| Patches.ShapeDraws | lib/src/main/java/net/aquadc/fiftyshades/RectWithShadow.java:121-129 | An ordinary variant's shape is drawn once as laid out; a BETWEEN_* shape as two proper rectangles |
| Patches.Bitmap | lib/src/main/java/net/aquadc/fiftyshades/RectWithShadow.java:99-131 | Fails iff a padding eats into the corner; otherwise the measured tile, erased exactly when the background colour is not 0 (TRANSPARENT), even one with zero alpha, the shape drawn and stroked only with a stroke |
| Patches.Paint | lib/src/main/java/net/aquadc/fiftyshades/RectWithShadow.java:113-130 | The measured tile with its fill and stroke draws |
| Patches.CreatePatch | lib/src/main/java/net/aquadc/fiftyshades/RectWithShadow.java:53-67 | With the given or inferred paddings: fails iff a padding eats the corner, else the bitmap's tile (size, erase flag, radius, fill and stroke draws) and exactly the variant's chunk bytes |
| Patches.PaddingsOrInferred | lib/src/main/java/net/aquadc/fiftyshades/RectWithShadow.java:60 | The given paddings, or the inferred ones when none are given |
| Patches.CreatePatchSimple | lib/src/main/java/net/aquadc/fiftyshades/RectWithShadow.java:36-40 | A negative corner radius fails with "must be >= 0". Otherwise it fails iff the inferred paddings eat the corner, which happens only when their int sums wrap. A patch is the unerased ALL tile of the measured size with the fill draws and no stroke, plus the ALL chunk for a transparent background and the fill colour. Inferred paddings that fit an int always give a patch |
| Patches.OverflowingPaddingsEatCorners | lib/src/main/java/net/aquadc/fiftyshades/RectWithShadow.java:107-108 | With offset (2e9, 0) and blur 2e8 the wrapped right padding eats every corner radius below 2094967296 |
| Patches.CreateDrawable | lib/src/main/java/net/aquadc/fiftyshades/RectWithShadow.java:83-95 | With the given or inferred paddings: fails iff a padding eats the corner; else exactly `createPatch`'s tile and chunk bytes, inset by minus each padding |
| Patches.CreateDrawableSimple | lib/src/main/java/net/aquadc/fiftyshades/RectWithShadow.java:74-76 | ALL with inferred paddings on a transparent background, the rect's stroke kept: fails iff those paddings eat the corner, with that error, and never when they fit an int and the corner radius is non-negative; else the unerased ALL tile and the ALL chunk, inset by the paddings' negatives |
| Patches.FittingPaddingsKeepCorners | lib/src/main/java/net/aquadc/fiftyshades/ShadowSpec.java:40-47 | Inferred paddings that fit an int are at least the blur on every side, so they never eat a non-negative corner |

## Left out

- Pixels, `Canvas`, `Paint`, `Path` and the gradient constructors are not modelled. A drawn tile is its size, its erase flag and the boxes handed to `drawRoundRect`; a gradient is its geometry and colours. Left out with them:
  - the gradient stop positions (`radialPositions` and the edge stops);
  - the arcs and lines of `buildCornerPath` (only where `arcBounds` ends up);
  - the geometry of `drawCorner`, `drawEdges` and `drawRect`.
- Float rounding is not modelled: a finite `float` is an exact real, so float addition commutes (`InnerShadows.AddComm`). The `Math.sqrt` in `shadowDistance` becomes a `hypot` parameter, constrained by `IsHypot`.
- The animator `Property` objects and their `Build.VERSION` dispatch (Shadow.java:184-220 and their counterparts in the other drawables) are left out. They only forward to `i`/`f`/`get_`/`set_`.
- `hashCode` of both specs is left out, because it only mixes float bits.
- `ShadowSpec.toString` is left out apart from its colour part (`AppendShadowColor`). Its other fields are Java's decimal text of floats, which has no model here.
- `RectSpec.toString` takes the decimal text of an int and of a float as parameters.
- `Float.floatToRawIntBits`/`intBitsToFloat` in `get_`/`set_` are not modelled: float properties are stored as `Float` values.
- Int overflow of the padding and tile-size sums in `measure`, `layout` and `chunk` is not modelled. It is unbounded here; the chunk bytes themselves wrap with `Wrap32`. The sums in `inferPaddings` do wrap (`ShadowPaddings`), and so does `d = 2 * r` in `RectInnerShadow.draw` (`CornerTile`). The negations `-corner` in `bitmap` and `-paddings.left` (and the other sides) in `createDrawable` would wrap only for MIN_VALUE. A padding of MIN_VALUE always eats a non-negative corner, so it never reaches the negation.
- InnerShadows.RectInnerShadow.Draw: `arcBounds` holds exact reals here. In Java they are floats, so when `round(dx)` saturates at MAX_VALUE (`dx` of 2^31 or more), the left `-2147483647` rounds to -2^31, the MIN_VALUE sentinel. The corner paths then stay stale and are rebuilt on every draw, while the model's "nothing stale after drawing" holds.
- `invalidateSelf()` and `parent.invalidate()` are left out: they are callbacks into the view system.
- `View`, `System.identityHashCode` and tags are not modelled as such. A view's identity is a constructor field and its tags are `Option` fields.
- `getAlpha()` is an int parameter of `ItemLayers`.
- The loops of `drawOuter`/`drawRemaining`, `drawShadow` and `gatherBoundsOf` are left out. Only the per-child conditions (`ItemLayers`) are modelled.
- `Pool.UnsafeDrawableFor` receives the new drawable as the parameter `made`. The factory's `newDrawable().mutate()` is not modelled.
- The `long` used-mask is a `set<nat>` of bit indices modulo 64.
- `SparseArray`'s binary search is a linear scan over sorted keys. The model only relies on the result, not on how it is found.
- `setFrom`, the float setters and the copy constructor of `ShadowSpec`, and the six-argument `ShadowState` constructor are not among the source files. They are modelled from their uses in Shadow.java.
- `hasVisibleStroke()` is not among the source files. It is modelled as `hasStroke()`.
- `RectShadow` and `RectInnerShadow` share `ShadowState`; the outer drawable's state has `inner = false`.
- The zero- and two-argument drawable constructors only delegate to the ones modelled, and are left out.
- Numbers.Widen: the widening of an `int` to `float` is exact except at `Integer.MAX_VALUE`. Only that case matters in `ceil`, because the cast of a float whose magnitude is 2^24 or more is the float itself.
