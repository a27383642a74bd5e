/** `RectWithShadow`: the factory of stretchable patches holding a rounded
    rectangle with its shadow. The bitmap is measured and checked, the shape
    is laid out and drawn (split in two when it is inside out), and the
    nine-patch chunk is written for the same corner on both axes. Pixels are
    not modelled: a bitmap is its size, whether it was erased, and the
    rectangles handed to `drawRoundRect`. */
module Patches {
  import opened Java
  import opened Numbers
  import opened Graphics
  import opened NinePatchChunk
  import opened Specs
  import opened Corners

  /** The paddings in use: the given ones, or those the shadow infers. */
  function EffectivePaddings(paddings: Option<Rect>, shadow: ShadowValue): Rect
  {
    match paddings
    case Some(p) => p
    case None => ShadowPaddings(shadow.dx, shadow.dy, shadow.radius)
  }

  /** `if (paddings == null) paddings = shadow.inferPaddings()`. */
  method PaddingsOrInferred(paddings: Option<Rect>, shadow: ShadowSpec) returns (p: Rect)
    ensures p == EffectivePaddings(paddings, shadow.Value())
  {
    match paddings {
      case Some(given) => p := given;
      case None => p := shadow.InferPaddings();
    }
  }

  /** Negative paddings that would cut into the corner. */
  predicate EatsCorners(paddings: Rect, corner: int)
  {
    paddings.left < -corner || paddings.top < -corner || paddings.right < -corner || paddings.bottom < -corner
  }

  // ---------------------------------------------------------------------------
  // drawing a possibly inside-out rounded rectangle

  /** What `drawRR` hands to the canvas for `b`. A proper rectangle is
      drawn once. One with a negative width is drawn twice, first from
      `width` to its right edge, then from its left edge to
      `canvasWidth - width`. Otherwise it is drawn twice along the vertical
      axis the same way. */
  function RoundRectDraws(b: Box, canvasWidth: real, canvasHeight: real): (r: seq<Box>)
    ensures |r| == (if b.right - b.left > 0.0 && b.bottom - b.top > 0.0 then 1 else 2)
  {
    var width, height := b.right - b.left, b.bottom - b.top;
    if width > 0.0 && height > 0.0 then [b]
    else if width < 0.0 then [b.(left := width), b.(right := canvasWidth - width)]
    else [b.(top := height), b.(bottom := canvasHeight - height)]
  }

  /** `drawRR`: overwrites an edge of `bounds` for each extra draw and puts
      it back afterwards. */
  method DrawRR(canvasWidth: real, canvasHeight: real, bounds: RectF) returns (draws: seq<Box>)
    modifies bounds
    ensures draws == RoundRectDraws(old(bounds.AsBox()), canvasWidth, canvasHeight)
    ensures bounds.AsBox() == old(bounds.AsBox())
  {
    var width, height := bounds.Width(), bounds.Height();
    if width > 0.0 && height > 0.0 {
      draws := [bounds.AsBox()];
    } else if width < 0.0 {
      var tmp := bounds.left;
      bounds.left := width;
      draws := [bounds.AsBox()];
      bounds.left := tmp;

      tmp := bounds.right;
      bounds.right := canvasWidth - width;
      draws := draws + [bounds.AsBox()];
      bounds.right := tmp;
    } else {
      var tmp := bounds.top;
      bounds.top := height;
      draws := [bounds.AsBox()];
      bounds.top := tmp;

      tmp := bounds.bottom;
      bounds.bottom := canvasHeight - height;
      draws := draws + [bounds.AsBox()];
      bounds.bottom := tmp;
    }
  }

  /** In a tile with non-negative paddings and corner, an ordinary shape is
      drawn once as it is, and the inside-out shape of a `BETWEEN_*`
      variant is drawn as two proper rectangles. */
  lemma ShapeDraws(c: CornerSet, paddings: Rect, corner: int, shadow: ShadowValue)
    requires corner >= 0
    requires paddings.left >= 0 && paddings.top >= 0 && paddings.right >= 0 && paddings.bottom >= 0
    ensures var b := ShapeBox(c, paddings, corner, corner, shadow);
            var draws := RoundRectDraws(b, MeasureWidth(c, paddings, corner, shadow) as real,
                                           MeasureHeight(c, paddings, corner, shadow) as real);
            (!IsBetween(c) ==> draws == [b]) &&
            (IsBetween(c) ==> (|draws| == 2 &&
               forall i :: 0 <= i < 2 ==> draws[i].left < draws[i].right && draws[i].top < draws[i].bottom))
  {
    var b := ShapeBox(c, paddings, corner, corner, shadow);
    ShapeBoxFits(c, paddings, corner, corner, shadow);
    VariantSides(c);
    if c.BetweenBottomAndTop? {
      assert b.bottom - b.top < 0.0 && b.right - b.left > 0.0;
    } else if c.BetweenRightAndLeft? {
      assert b.right - b.left < 0.0;
      assert b.bottom - b.top > 0.0;
    }
  }

  // ---------------------------------------------------------------------------
  // bitmap and patch

  /** A drawn tile: its size, whether it was erased with the background
      colour, the corner radius of the rounded rectangles, and the
      rectangles drawn for the fill (with the shadow layer) and for the
      stroke. */
  datatype Tile = Tile(width: int, height: int, erased: bool, radius: int, fill: seq<Box>, stroke: seq<Box>)

  datatype NinePatch = NinePatch(tile: Tile, chunk: seq<Byte>)

  /** The tile `bitmap` draws for paddings that keep the corner
      `max(cornerRadius, ceil(strokeWidth))`: measured for that corner,
      erased unless the background is `TRANSPARENT`, with the laid-out
      shape drawn, and drawn again for the stroke when there is one. */
  function DrawnTile(bgColor: Int, rect: RectValue, shadow: ShadowValue, paddings: Rect, corners: CornerSet): Tile
  {
    var corner := MaxCeil(rect.cornerRadius, rect.strokeWidth);
    var w, h := MeasureWidth(corners, paddings, corner, shadow), MeasureHeight(corners, paddings, corner, shadow);
    var draws := RoundRectDraws(ShapeBox(corners, paddings, corner, corner, shadow), w as real, h as real);
    Tile(w, h, bgColor != Transparent, rect.cornerRadius, draws, if rect.HasStroke() then draws else [])
  }

  /** The chunk `createPatch` writes: the variant's plan for the same
      corner on both axes, serialised. */
  function PatchChunk(bgColor: Int, rect: RectValue, shadow: ShadowValue, paddings: Rect, corners: CornerSet): seq<Byte>
  {
    var corner := MaxCeil(rect.cornerRadius, rect.strokeWidth);
    var plan := ChunkPlan(corners, paddings, corner, corner, shadow, bgColor, rect.fillColor);
    ChunkBytes(HeaderPaddings(corners, paddings), plan.xDiv, plan.yDiv, SlotColors(plan.colorCount, plan.colorsAt, plan.color))
  }

  /** `bitmap`: rejects paddings that eat the corner, then measures, erases
      (only for a non-transparent background), lays out and draws. */
  method Bitmap(bgColor: Int, rect: RectSpec, shadow: ShadowSpec, paddings: Rect, corners: CornerSet)
    returns (r: Result<Tile>)
    ensures var corner := MaxCeil(rect.cornerRadius, rect.strokeWidth);
            (r.Err? <==> EatsCorners(paddings, corner)) && (r.Err? ==> r.error == PaddingsEatCorners)
    ensures r.Ok? ==> r.value == DrawnTile(bgColor, rect.Value(), shadow.Value(), paddings, corners)
  {
    var cornerRadius := rect.cornerRadius;
    var corner := MaxCeil(cornerRadius, rect.strokeWidth);
    if paddings.left < -corner || paddings.top < -corner || paddings.right < -corner || paddings.bottom < -corner {
      return Err(PaddingsEatCorners);
    }
    var tile := Paint(bgColor, rect, shadow, paddings, corners, corner);
    r := Ok(tile);
  }

  /** The part of `bitmap` after the check: measures, erases, lays out
      and draws for the corner `corner`. */
  method Paint(bgColor: Int, rect: RectSpec, shadow: ShadowSpec, paddings: Rect, corners: CornerSet, corner: int)
    returns (t: Tile)
    ensures var w, h := MeasureWidth(corners, paddings, corner, shadow.Value()), MeasureHeight(corners, paddings, corner, shadow.Value());
            var draws := RoundRectDraws(ShapeBox(corners, paddings, corner, corner, shadow.Value()), w as real, h as real);
            t == Tile(w, h, bgColor != Transparent, rect.cornerRadius, draws, if rect.HasStroke() then draws else [])
  {
    var width := MeasureWidth(corners, paddings, corner, shadow.Value());
    var height := MeasureHeight(corners, paddings, corner, shadow.Value());
    var erased := bgColor != Transparent;
    var shape := Layout(corners, paddings, corner, corner, shadow);
    var fill := DrawRR(width as real, height as real, shape);
    var stroke: seq<Box> := [];
    if rect.HasStroke() {
      stroke := DrawRR(width as real, height as real, shape);
    }
    t := Tile(width, height, erased, rect.cornerRadius, fill, stroke);
  }

  /** `createPatch(bgColor, rect, shadow, paddings, corners)`: the bitmap
      and the chunk, both for the corner `max(cornerRadius,
      ceil(strokeWidth))` and the given or inferred paddings. */
  method CreatePatch(bgColor: Int, rect: RectSpec, shadow: ShadowSpec, paddings: Option<Rect>, corners: CornerSet)
    returns (r: Result<NinePatch>)
    ensures var p, corner := EffectivePaddings(paddings, shadow.Value()), MaxCeil(rect.cornerRadius, rect.strokeWidth);
            (r.Err? <==> EatsCorners(p, corner)) && (r.Err? ==> r.error == PaddingsEatCorners)
    ensures r.Ok? ==>
      var p := EffectivePaddings(paddings, shadow.Value());
      r.value == NinePatch(DrawnTile(bgColor, rect.Value(), shadow.Value(), p, corners),
                           PatchChunk(bgColor, rect.Value(), shadow.Value(), p, corners))
  {
    var p := PaddingsOrInferred(paddings, shadow);
    var corner := MaxCeil(rect.cornerRadius, rect.strokeWidth);
    var bitmap := Bitmap(bgColor, rect, shadow, p, corners);
    if bitmap.Err? {
      return Err(bitmap.error);
    }
    var chunk := Corners.Chunk(corners, p, corner, corner, shadow, bgColor, rect.fillColor);
    r := Ok(NinePatch(bitmap.value, chunk[..]));
  }

  /** `createPatch(fillColor, cornerRadius, shadow)`: a stroke-less
      rectangle, a transparent background, inferred paddings and all
      corners. A negative radius is the only argument error. The inferred
      paddings never eat the corner unless their `int` sums wrap around, so
      a shadow whose paddings fit an `int` always yields a patch. */
  method CreatePatchSimple(fillColor: Int, cornerRadius: Int, shadow: ShadowSpec) returns (r: Result<NinePatch>)
    ensures cornerRadius < 0 ==> r == Err(MustBeNonNegative("cornerRadius"))
    ensures cornerRadius >= 0 ==>
      var p := ShadowPaddings(shadow.dx, shadow.dy, shadow.radius);
      (r.Err? <==> EatsCorners(p, cornerRadius)) && (r.Err? ==> r.error == PaddingsEatCorners)
    ensures cornerRadius >= 0 && r.Ok? ==>
      var p := ShadowPaddings(shadow.dx, shadow.dy, shadow.radius);
      var w, h := MeasureWidth(All, p, cornerRadius, shadow.Value()), MeasureHeight(All, p, cornerRadius, shadow.Value());
      var plan := ChunkPlan(All, p, cornerRadius, cornerRadius, shadow.Value(), Transparent, fillColor);
      r.value.tile == Tile(w, h, false, cornerRadius,
                           RoundRectDraws(ShapeBox(All, p, cornerRadius, cornerRadius, shadow.Value()), w as real, h as real), []) &&
      r.value.chunk == ChunkBytes(HeaderPaddings(All, p), plan.xDiv, plan.yDiv,
                                  SlotColors(plan.colorCount, plan.colorsAt, plan.color))
    ensures cornerRadius >= 0 && Ceil(shadow.radius) >= 0 && PaddingsFit(shadow.dx, shadow.dy, shadow.radius) ==> r.Ok?
  {
    var rect := RectSpec.NewNoStroke(fillColor, cornerRadius);
    if rect.Err? {
      return Err(rect.error);
    }
    assert Ceil(Num(0.0)) == 0;
    if Ceil(shadow.radius) >= 0 && PaddingsFit(shadow.dx, shadow.dy, shadow.radius) {
      FittingPaddingsKeepCorners(shadow.dx, shadow.dy, shadow.radius, cornerRadius);
    }
    r := CreatePatch(Transparent, rect.value, shadow, None, All);
  }

  /** Inferred paddings that fit an `int` are at least the blur, so they
      never eat a corner that is not negative. */
  lemma FittingPaddingsKeepCorners(dx: Float, dy: Float, radius: Float, corner: int)
    requires corner >= 0 && Ceil(radius) >= 0 && PaddingsFit(dx, dy, radius)
    ensures !EatsCorners(ShadowPaddings(dx, dy, radius), corner)
  {
    var p, c := ShadowPaddings(dx, dy, radius), Ceil(radius);
    assert p.left >= c && p.right >= c && p.top >= c && p.bottom >= c;
  }

  /** With the offset (2e9, 0) and the blur 2e8 the right padding wraps to
      -2094967296, so the simple factory rejects every corner radius
      smaller than that magnitude. */
  lemma OverflowingPaddingsEatCorners(cornerRadius: int)
    requires 0 <= cornerRadius < 2094967296
    ensures EatsCorners(ShadowPaddings(Num(2000000000.0), Num(0.0), Num(200000000.0)), cornerRadius)
  {
    ShadowPaddingsOverflowExample();
  }

  /** A patch wrapped in an `InsetDrawable`: the insets (left, top, right,
      bottom) let the shadow draw outside the view's bounds. */
  datatype InsetPatch = InsetPatch(patch: NinePatch, insets: Rect)

  /** `createDrawable(bgColor, rect, shadow, paddings, corners)`: the patch,
      inset by minus each of the given or inferred paddings. */
  method CreateDrawable(bgColor: Int, rect: RectSpec, shadow: ShadowSpec, paddings: Option<Rect>, corners: CornerSet)
    returns (r: Result<InsetPatch>)
    ensures var p, corner := EffectivePaddings(paddings, shadow.Value()), MaxCeil(rect.cornerRadius, rect.strokeWidth);
            (r.Err? <==> EatsCorners(p, corner)) && (r.Err? ==> r.error == PaddingsEatCorners)
    ensures r.Ok? ==>
      var p := EffectivePaddings(paddings, shadow.Value());
      r.value == InsetPatch(NinePatch(DrawnTile(bgColor, rect.Value(), shadow.Value(), p, corners),
                                      PatchChunk(bgColor, rect.Value(), shadow.Value(), p, corners)),
                            Rect(-p.left, -p.top, -p.right, -p.bottom))
  {
    var p := PaddingsOrInferred(paddings, shadow);
    assert EffectivePaddings(Some(p), shadow.Value()) == p;
    var patch := CreatePatch(bgColor, rect, shadow, Some(p), corners);
    if patch.Err? {
      return Err(patch.error);
    }
    r := Ok(InsetPatch(patch.value, Rect(-p.left, -p.top, -p.right, -p.bottom)));
  }

  /** `createDrawable(rect, shadow)`: transparent background, inferred
      paddings, all corners. */
  method CreateDrawableSimple(rect: RectSpec, shadow: ShadowSpec) returns (r: Result<InsetPatch>)
    ensures var p := ShadowPaddings(shadow.dx, shadow.dy, shadow.radius);
            var corner := MaxCeil(rect.cornerRadius, rect.strokeWidth);
            (r.Err? <==> EatsCorners(p, corner)) && (r.Err? ==> r.error == PaddingsEatCorners)
    ensures r.Ok? ==>
      var p := ShadowPaddings(shadow.dx, shadow.dy, shadow.radius);
      r.value == InsetPatch(NinePatch(DrawnTile(Transparent, rect.Value(), shadow.Value(), p, All),
                                      PatchChunk(Transparent, rect.Value(), shadow.Value(), p, All)),
                            Rect(-p.left, -p.top, -p.right, -p.bottom)) &&
      !r.value.patch.tile.erased
    ensures rect.cornerRadius >= 0 && Ceil(shadow.radius) >= 0 && PaddingsFit(shadow.dx, shadow.dy, shadow.radius) ==> r.Ok?
  {
    if rect.cornerRadius >= 0 && Ceil(shadow.radius) >= 0 && PaddingsFit(shadow.dx, shadow.dy, shadow.radius) {
      FittingPaddingsKeepCorners(shadow.dx, shadow.dy, shadow.radius, MaxCeil(rect.cornerRadius, rect.strokeWidth));
    }
    r := CreateDrawable(Transparent, rect, shadow, None, All);
  }
}
