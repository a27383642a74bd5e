/** What the two shadow drawables share: the constant state (corner radius,
    shadow spec, inner or outer), the corner radius bounded by the
    drawable's size, and the dispatch from a changed property to the
    invalidation hook it fires. */
module Shadows {
  import opened Java
  import opened Numbers
  import opened Graphics
  import opened Specs

  /** `Shadow.ShadowState`: the part of a drawable that is shared between
      the drawables made from one constant state. */
  class ShadowState {
    var cornerRadius: Int
    const shadow: ShadowSpec
    const inner: bool

    constructor (cornerRadius: Int, shadow: ShadowSpec, inner: bool)
      ensures this.cornerRadius == cornerRadius && this.shadow == shadow && this.inner == inner
    {
      this.cornerRadius, this.shadow, this.inner := cornerRadius, shadow, inner;
    }
  }

  /** `boundedCornerRadius()`: the corner radius, limited to half the
      smaller side of the bounds (Java division, truncated toward zero). */
  function BoundedCornerRadius(bounds: Rect, cornerRadius: int): (r: int)
    ensures r <= cornerRadius
    ensures r == cornerRadius || r == JavaDiv(Min(bounds.Width(), bounds.Height()), 2)
    ensures bounds.Width() >= 0 && bounds.Height() >= 0 ==> 2 * r <= bounds.Width() && 2 * r <= bounds.Height()
    ensures bounds.Width() < 0 || bounds.Height() < 0 ==> r <= 0
  {
    var half := JavaDiv(Min(bounds.Width(), bounds.Height()), 2);
    Min(half, cornerRadius)
  }

  function Min(a: int, b: int): int { if a <= b then a else b }

  /** On a squeezed drawable the truncating division rounds toward zero:
      a width of -3 bounds the corner to -1, not to -2. */
  lemma SqueezedCornerRadius()
    ensures BoundedCornerRadius(Rect(0, 0, -3, 10), 5) == -1
  {
    assert JavaDiv(-3, 2) == -1;
  }

  // ---------------------------------------------------------------------------
  // gradients

  /** `0xFFFFFF & color`: the same colour, fully transparent; a gradient
      from it to the colour fades the shadow out without shifting its hue. */
  function WithoutAlpha(color: Int): (t: Int)
    ensures 0 <= t < 0x100_0000
    ensures Alpha(t) == 0
    ensures Unsigned(t) + Alpha(color) * 0x100_0000 == Unsigned(color)
  {
    Unsigned(color) % 0x100_0000
  }

  /** The colours of a gradient that only fades `color`: every stop has its
      red, green and blue, and either its alpha or none. */
  predicate FadesOnly(colors: seq<Int>, color: Int)
  {
    forall i :: 0 <= i < |colors| ==>
      WithoutAlpha(colors[i]) == WithoutAlpha(color) && (Alpha(colors[i]) == 0 || colors[i] == color)
  }

  /** Dropping the alpha twice is dropping it once. */
  lemma WithoutAlphaTwice(color: Int)
    ensures WithoutAlpha(WithoutAlpha(color)) == WithoutAlpha(color)
  {
    var t := WithoutAlpha(color);
    assert Unsigned(t) == t;
  }

  /** A `RadialGradient`: centre, radius and colours (stop positions are
      float arithmetic and are not modelled). */
  datatype Radial = Radial(cx: Float, cy: Float, radius: Float, colors: seq<Int>)

  /** A `LinearGradient`: start point, end point and colours. */
  datatype Linear = Linear(x0: Float, y0: Float, x1: Float, y1: Float, colors: seq<Int>)

  // ---------------------------------------------------------------------------
  // invalidation hooks

  /** The hooks `Shadow` calls when a property changes. */
  datatype Hook = RadiusInvalidated | ShadowOffsetInvalidated | ShadowRadiusInvalidated | ShadowColorInvalidated

  /** The hook `i(index, value)` fires for a changed int property:
      0 is the corner radius, 1 the shadow colour. */
  function IntHook(index: int): Hook
    requires index == 0 || index == 1
  {
    if index == 0 then RadiusInvalidated else ShadowColorInvalidated
  }

  /** The hook `f(index, value)` fires for a changed float property:
      1 and 2 are the offsets, 3 the blur radius. */
  function FloatHook(index: int): Hook
    requires 1 <= index <= 3
  {
    if index == 3 then ShadowRadiusInvalidated else ShadowOffsetInvalidated
  }

  /** The hooks `shadow(spec)` fires, in order, for the change mask that
      `ShadowSpec.setFrom` returned. */
  function MaskHooks(changes: bv32): seq<Hook>
  {
    (if changes & 3 != 0 then [ShadowOffsetInvalidated] else []) +
    (if changes & 4 != 0 then [ShadowRadiusInvalidated] else []) +
    (if changes & 8 != 0 then [ShadowColorInvalidated] else [])
  }

  /** The hooks due when a shadow goes from `a` to `b`: the offset hook if
      either offset differs, the radius hook if the blur radius differs,
      the colour hook if the colour differs (floats compared as
      `Float.compare` does). */
  function ChangeHooks(a: ShadowValue, b: ShadowValue): (hooks: seq<Hook>)
    ensures |hooks| <= 3
    ensures a == b <==> hooks == []
    ensures ShadowOffsetInvalidated in hooks <==> a.dx != b.dx || a.dy != b.dy
    ensures ShadowRadiusInvalidated in hooks <==> a.radius != b.radius
    ensures ShadowColorInvalidated in hooks <==> a.color != b.color
    ensures RadiusInvalidated !in hooks
  {
    (if a.dx != b.dx || a.dy != b.dy then [ShadowOffsetInvalidated] else []) +
    (if a.radius != b.radius then [ShadowRadiusInvalidated] else []) +
    (if a.color != b.color then [ShadowColorInvalidated] else [])
  }

  /** The mask `setFrom` reports, read by `shadow(spec)`, fires exactly the
      hooks the change of values calls for, in the same order. */
  lemma MaskFiresChangeHooks(changes: bv32, a: ShadowValue, b: ShadowValue)
    requires changes & !0xF == 0
    requires (changes & 1 != 0) == !FSame(a.dx, b.dx)
    requires (changes & 2 != 0) == !FSame(a.dy, b.dy)
    requires (changes & 4 != 0) == !FSame(a.radius, b.radius)
    requires (changes & 8 != 0) == (a.color != b.color)
    ensures MaskHooks(changes) == ChangeHooks(a, b)
    ensures changes == 0 <==> a == b
  {
    assert (changes & 3 != 0) == (changes & 1 != 0 || changes & 2 != 0) by {
      assert changes & 3 == (changes & 1) | (changes & 2);
    }
    if changes == 0 {
      assert changes & 1 == 0 && changes & 2 == 0 && changes & 4 == 0 && changes & 8 == 0;
    } else {
      assert changes & 1 != 0 || changes & 2 != 0 || changes & 4 != 0 || changes & 8 != 0 by {
        assert changes == changes & 0xF;
      }
    }
  }
}
