/** `RectItemsWithShadows`: a list decoration drawing a rounded rectangle
    with a shadow under (or inside) every child view. A child may override
    the decoration's rect and shadow specs through two view tags; a tag
    made by the property setters starts with sentinel fields that the
    decoration replaces with its own defaults before drawing. */
module Items {
  import opened Java
  import opened Numbers
  import opened Specs
  import Shadows
  import OuterShadows
  import Pool

  // ---------------------------------------------------------------------------
  // colours

  /** `withAlpha(color, alpha)`: the colour with its alpha scaled by
      `alpha / 255`. The scaled alpha shifted left by 24 keeps only its low
      8 bits, and `0xFFFFFF & color` has none of bits 24-31, so the `|`
      of the two is their sum. */
  function WithAlpha(color: Int, alpha: int): (c: Int)
    ensures Shadows.WithoutAlpha(c) == Shadows.WithoutAlpha(color)
    ensures Alpha(c) == JavaDiv(Alpha(color) * alpha, 255) % 256
    ensures 0 <= alpha <= 255 ==> Alpha(c) == Alpha(color) * alpha / 255
  {
    var q := JavaDiv(Alpha(color) * alpha, 255);
    AlphaOver(q, Shadows.WithoutAlpha(color));
    ScaledAlpha(Alpha(color), alpha);
    Wrap32(q % 256 * 0x100_0000 + Shadows.WithoutAlpha(color))
  }

  /** The low byte of `q` over 24 colour bits is a colour with exactly
      those parts. */
  lemma AlphaOver(q: int, t: int)
    requires 0 <= t < 0x100_0000
    ensures var c := Wrap32(q % 256 * 0x100_0000 + t);
            Alpha(c) == q % 256 && Shadows.WithoutAlpha(c) == t
  {
    var a := q % 256;
    var x := a * 0x100_0000 + t;
    UnsignedOfWrap(x);
    DivModUnique(x, 0x100_0000, a, t);
  }

  lemma UnsignedOfWrap(x: int)
    requires 0 <= x < TwoTo32
    ensures Unsigned(Wrap32(x)) == x
  {
    if x <= MaxInt {
      assert Wrap32(x) == x;
    } else {
      assert Wrap32(x) == x - TwoTo32;
      assert (x - TwoTo32) % TwoTo32 == x;
    }
  }

  /** Scaling an alpha byte by `alpha / 255` gives an alpha byte again. */
  lemma ScaledAlpha(a: int, alpha: int)
    requires 0 <= a < 256
    ensures 0 <= alpha <= 255 ==> JavaDiv(a * alpha, 255) % 256 == a * alpha / 255
  {
    if 0 <= alpha <= 255 {
      var p := a * alpha;
      assert 0 <= p <= a * 255;
      var q := p / 255;
      assert q <= a;
      assert JavaDiv(p, 255) == q;
    }
  }

  /** A fully opaque view draws its colours unchanged. */
  lemma WithAlphaOpaque(color: Int)
    ensures WithAlpha(color, 255) == color
  {
    var c := WithAlpha(color, 255);
    assert Alpha(color) * 255 / 255 == Alpha(color);
    assert Unsigned(c) == Alpha(c) * 0x100_0000 + Shadows.WithoutAlpha(c);
    assert Unsigned(color) == Alpha(color) * 0x100_0000 + Shadows.WithoutAlpha(color);
    assert Wrap32(Unsigned(c)) == c && Wrap32(Unsigned(color)) == color;
  }

  /** A fully transparent view draws its colours with no alpha at all. */
  lemma WithAlphaTransparent(color: Int)
    ensures WithAlpha(color, 0) == Shadows.WithoutAlpha(color)
  {
    var c, t := WithAlpha(color, 0), Shadows.WithoutAlpha(color);
    assert Unsigned(c) == Alpha(c) * 0x100_0000 + Shadows.WithoutAlpha(c);
    assert Unsigned(t) == t;
    assert Wrap32(Unsigned(c)) == c;
  }

  // ---------------------------------------------------------------------------
  // sentinels and defaults

  /** `DEFAULT_RECT`: transparent fill, square corners, no stroke. */
  const DefaultRect: RectValue := RectValue(Transparent, 0, Transparent, Num(0.0))

  /** `DEFAULT_SHADOW`: no offset, no blur, transparent. */
  const DefaultShadow: ShadowValue := ShadowValue(Num(0.0), Num(0.0), Num(0.0), Transparent)

  /** `invalidRectSpec()`: every field a sentinel (colour 1, corner radius
      `Integer.MIN_VALUE`, NaN stroke width). */
  const InvalidRect: RectValue := RectValue(1, MinInt, 1, NaN)

  /** `invalidShadowSpec()`: every field a sentinel (NaN floats, colour 1). */
  const InvalidShadow: ShadowValue := ShadowValue(NaN, NaN, NaN, 1)

  /** `fix(RectSpec)` on values: each sentinel field takes the default's
      field, every other field is kept. */
  function FixedRect(r: RectValue, d: RectValue): RectValue
  {
    RectValue(if r.fillColor == 1 then d.fillColor else r.fillColor,
              if r.cornerRadius == MinInt then d.cornerRadius else r.cornerRadius,
              if r.strokeColor == 1 then d.strokeColor else r.strokeColor,
              if r.strokeWidth.NaN? then d.strokeWidth else r.strokeWidth)
  }

  /** `fix(ShadowSpec)` on values. */
  function FixedShadow(s: ShadowValue, d: ShadowValue): ShadowValue
  {
    ShadowValue(if s.dx.NaN? then d.dx else s.dx,
                if s.dy.NaN? then d.dy else s.dy,
                if s.radius.NaN? then d.radius else s.radius,
                if s.color == 1 then d.color else s.color)
  }

  predicate RectHasSentinel(r: RectValue)
  {
    r.fillColor == 1 || r.cornerRadius == MinInt || r.strokeColor == 1 || r.strokeWidth.NaN?
  }

  predicate ShadowHasSentinel(s: ShadowValue)
  {
    s.dx.NaN? || s.dy.NaN? || s.radius.NaN? || s.color == 1
  }

  /** Fixing touches sentinel fields only: a spec without sentinels is left
      as it is, the all-sentinel spec becomes the default, fixing twice is
      fixing once, and with a sentinel-free default no sentinel remains. */
  lemma FixRectProperties(r: RectValue, d: RectValue)
    ensures !RectHasSentinel(r) ==> FixedRect(r, d) == r
    ensures FixedRect(InvalidRect, d) == d
    ensures FixedRect(FixedRect(r, d), d) == FixedRect(r, d)
    ensures !RectHasSentinel(d) ==> !RectHasSentinel(FixedRect(r, d))
    ensures FixedRect(d, d) == d
  {
  }

  lemma FixShadowProperties(s: ShadowValue, d: ShadowValue)
    ensures !ShadowHasSentinel(s) ==> FixedShadow(s, d) == s
    ensures FixedShadow(InvalidShadow, d) == d
    ensures FixedShadow(FixedShadow(s, d), d) == FixedShadow(s, d)
    ensures !ShadowHasSentinel(d) ==> !ShadowHasSentinel(FixedShadow(s, d))
    ensures FixedShadow(d, d) == d
  {
  }

  // ---------------------------------------------------------------------------
  // views and their tags

  /** A child view: its identity hash (`System.identityHashCode`), its
      alpha as the decoration reads it (`(int) (getAlpha() * 255)`), and
      its two decoration tags. */
  class View {
    const identity: int
    const alpha: Int
    var rectTag: Option<RectSpec>
    var shadowTag: Option<ShadowSpec>

    constructor (identity: int, alpha: Int)
      ensures this.identity == identity && this.alpha == alpha
      ensures rectTag.None? && shadowTag.None?
    {
      this.identity, this.alpha := identity, alpha;
      rectTag, shadowTag := None, None;
    }

    /** The spec objects the tags hold. */
    function Tags(): set<object>
      reads this
    {
      (if rectTag.Some? then {rectTag.value} else {}) + (if shadowTag.Some? then {shadowTag.value} else {})
    }
  }

  /** A property value: the int properties are 0 (fill colour), 1 (corner
      radius), 2 (stroke colour) and 7 (shadow colour); the others are
      floats. */
  datatype Prop = IntProp(i: Int) | FloatProp(f: Float)

  predicate IsIntIndex(at: int) { at == 0 || at == 1 || at == 2 || at == 7 }

  /** Field `at` (0-3) of a rect. */
  function RectField(r: RectValue, at: int): (p: Prop)
    requires 0 <= at < 4
    ensures p.IntProp? <==> IsIntIndex(at)
  {
    match at
    case 0 => IntProp(r.fillColor)
    case 1 => IntProp(r.cornerRadius)
    case 2 => IntProp(r.strokeColor)
    case _ => FloatProp(r.strokeWidth)
  }

  /** Field `at` (4-7) of a shadow. */
  function ShadowField(s: ShadowValue, at: int): (p: Prop)
    requires 4 <= at < 8
    ensures p.IntProp? <==> IsIntIndex(at)
  {
    match at
    case 4 => FloatProp(s.dx)
    case 5 => FloatProp(s.dy)
    case 6 => FloatProp(s.radius)
    case _ => IntProp(s.color)
  }

  /** `get_(view, at)`: field `at` of the view's rect (0-3) or shadow
      (4-7) tag, or of the default spec when the view has no such tag. */
  function Get(view: View, at: int): (p: Prop)
    reads view, view.Tags()
    requires 0 <= at < 8
    ensures p.IntProp? <==> IsIntIndex(at)
    ensures at < 4 && view.rectTag.None? ==> p == RectField(DefaultRect, at)
    ensures at >= 4 && view.shadowTag.None? ==> p == ShadowField(DefaultShadow, at)
  {
    if at < 4 then
      RectField(if view.rectTag.Some? then view.rectTag.value.Value() else DefaultRect, at)
    else
      ShadowField(if view.shadowTag.Some? then view.shadowTag.value.Value() else DefaultShadow, at)
  }

  /** An untagged view reads as transparent, square and shadowless. */
  lemma GetUntagged(view: View)
    requires view.rectTag.None? && view.shadowTag.None?
    ensures Get(view, 0) == IntProp(Transparent) && Get(view, 1) == IntProp(0)
    ensures Get(view, 2) == IntProp(Transparent) && Get(view, 3) == FloatProp(Num(0.0))
    ensures Get(view, 4) == FloatProp(Num(0.0)) && Get(view, 5) == FloatProp(Num(0.0))
    ensures Get(view, 6) == FloatProp(Num(0.0)) && Get(view, 7) == IntProp(Transparent)
  {
  }

  /** `r` with field `at` (0-3) replaced. */
  function WithRectField(r: RectValue, at: int, p: Prop): (q: RectValue)
    requires 0 <= at < 4 && (p.IntProp? <==> IsIntIndex(at))
    ensures RectField(q, at) == p
    ensures forall j :: 0 <= j < 4 && j != at ==> RectField(q, j) == RectField(r, j)
  {
    match at
    case 0 => r.(fillColor := p.i)
    case 1 => r.(cornerRadius := p.i)
    case 2 => r.(strokeColor := p.i)
    case _ => r.(strokeWidth := p.f)
  }

  /** `s` with field `at` (4-7) replaced. */
  function WithShadowField(s: ShadowValue, at: int, p: Prop): (q: ShadowValue)
    requires 4 <= at < 8 && (p.IntProp? <==> IsIntIndex(at))
    ensures ShadowField(q, at) == p
    ensures forall j :: 4 <= j < 8 && j != at ==> ShadowField(q, j) == ShadowField(s, j)
  {
    match at
    case 4 => s.(dx := p.f)
    case 5 => s.(dy := p.f)
    case 6 => s.(radius := p.f)
    case _ => s.(color := p.i)
  }

  /** `invalidRectSpec()`: built with the checking constructor, then given
      the sentinels it would reject. */
  method InvalidRectSpec() returns (r: RectSpec)
    ensures fresh(r) && r.Value() == InvalidRect
  {
    r := new RectSpec(1, 0, 1, Num(0.0));
    r.cornerRadius := MinInt;
    r.strokeWidth := NaN;
  }

  /** `invalidShadowSpec()`. */
  method InvalidShadowSpec() returns (s: ShadowSpec)
    ensures fresh(s) && s.Value() == InvalidShadow
  {
    s := new ShadowSpec(Num(0.0), Num(0.0), Num(0.0), 1);
    s.dx := NaN;
    s.dy := NaN;
    s.radius := NaN;
  }

  /** `set_(view, at, value)`: stores the value in field `at` of the view's
      rect or shadow tag, first tagging the view with an all-sentinel spec
      when it has none; the other tag is left alone. Reading the field back
      gives the value. */
  method Set(view: View, at: int, value: Prop)
    requires 0 <= at < 8 && (value.IntProp? <==> IsIntIndex(at))
    modifies view, view.Tags()
    ensures Get(view, at) == value
    ensures at < 4 ==>
              view.shadowTag == old(view.shadowTag) && view.rectTag.Some? &&
              (old(view.rectTag).Some? ==> view.rectTag == old(view.rectTag)) &&
              (old(view.rectTag).None? ==> fresh(view.rectTag.value)) &&
              view.rectTag.value.Value() ==
                WithRectField(if old(view.rectTag).Some? then old(view.rectTag.value.Value()) else InvalidRect, at, value)
    ensures at >= 4 ==>
              view.rectTag == old(view.rectTag) && view.shadowTag.Some? &&
              (old(view.shadowTag).Some? ==> view.shadowTag == old(view.shadowTag)) &&
              (old(view.shadowTag).None? ==> fresh(view.shadowTag.value)) &&
              view.shadowTag.value.Value() ==
                WithShadowField(if old(view.shadowTag).Some? then old(view.shadowTag.value.Value()) else InvalidShadow, at, value)
    ensures at < 4 && old(view.shadowTag).Some? ==> view.shadowTag.value.Value() == old(view.shadowTag.value.Value())
    ensures at >= 4 && old(view.rectTag).Some? ==> view.rectTag.value.Value() == old(view.rectTag.value.Value())
    ensures old(view.Tags()) <= view.Tags()
  {
    if at < 4 {
      var rect: RectSpec;
      if view.rectTag.None? {
        rect := InvalidRectSpec();
        view.rectTag := Some(rect);
      } else {
        rect := view.rectTag.value;
      }
      match at
      case 0 => rect.fillColor := value.i;
      case 1 => rect.cornerRadius := value.i;
      case 2 => rect.strokeColor := value.i;
      case _ => rect.strokeWidth := value.f;
    } else {
      var shadow: ShadowSpec;
      if view.shadowTag.None? {
        shadow := InvalidShadowSpec();
        view.shadowTag := Some(shadow);
      } else {
        shadow := view.shadowTag.value;
      }
      match at
      case 4 => shadow.dx := value.f;
      case 5 => shadow.dy := value.f;
      case 6 => shadow.radius := value.f;
      case _ => shadow.color := value.i;
    }
  }

  /** Setting one field of an untagged view leaves every other field of
      the new tag a sentinel, so once the decoration fixes the tag those
      fields read as the decoration's own. */
  lemma SetOnUntaggedThenFix(at: int, value: Prop, d: RectValue, e: ShadowValue)
    requires 0 <= at < 8 && (value.IntProp? <==> IsIntIndex(at))
    ensures at < 4 ==> forall j :: 0 <= j < 4 && j != at ==>
              RectField(FixedRect(WithRectField(InvalidRect, at, value), d), j) == RectField(d, j)
    ensures at >= 4 ==> forall j :: 4 <= j < 8 && j != at ==>
              ShadowField(FixedShadow(WithShadowField(InvalidShadow, at, value), e), j) == ShadowField(e, j)
  {
    if at < 4 {
      var q := WithRectField(InvalidRect, at, value);
      forall j | 0 <= j < 4 && j != at
        ensures RectField(FixedRect(q, d), j) == RectField(d, j)
      {
        assert RectField(q, j) == RectField(InvalidRect, j);
      }
    } else {
      var q := WithShadowField(InvalidShadow, at, value);
      forall j | 4 <= j < 8 && j != at
        ensures ShadowField(FixedShadow(q, e), j) == ShadowField(e, j)
      {
        assert ShadowField(q, j) == ShadowField(InvalidShadow, j);
      }
    }
  }

  // ---------------------------------------------------------------------------
  // the used mask

  /** The identities of the children, in order. */
  function Identities(children: seq<View>): (ids: seq<int>)
    ensures |ids| == |children|
    ensures forall i :: 0 <= i < |children| ==> ids[i] == children[i].identity
  {
    if children == [] then [] else Identities(children[..|children| - 1]) + [children[|children| - 1].identity]
  }

  /** The mask `normalize` builds: the union of the children's marks. */
  function UsedMask(keys: seq<int>, ids: seq<int>): set<nat>
  {
    if ids == [] then {} else UsedMask(keys, ids[..|ids| - 1]) + Pool.UsedMarkFor(keys, ids[|ids| - 1])
  }

  lemma UsedMaskStep(keys: seq<int>, ids: seq<int>, i: int)
    requires 0 <= i < |ids|
    ensures UsedMask(keys, ids[..i + 1]) == UsedMask(keys, ids[..i]) + Pool.UsedMarkFor(keys, ids[i])
  {
    assert ids[..i + 1][..i] == ids[..i];
  }

  /** The mask has at most one bit per child (`popCount(used) <= children`)
      and a bit only where some child's drawable sits, modulo 64. */
  lemma {:induction false} UsedMaskBounds(keys: seq<int>, ids: seq<int>)
    ensures |UsedMask(keys, ids)| <= |ids|
    ensures forall b :: b in UsedMask(keys, ids) <==>
              exists j :: 0 <= j < |ids| && ids[j] in keys && b == Pool.IndexIn(keys, ids[j]) % 64
  {
    if ids != [] {
      var init, last := ids[..|ids| - 1], ids[|ids| - 1];
      UsedMaskBounds(keys, init);
      var m := Pool.UsedMarkFor(keys, last);
      assert |UsedMask(keys, init) + m| <= |UsedMask(keys, init)| + |m|;
      forall b ensures b in UsedMask(keys, ids) <==>
                       exists j :: 0 <= j < |ids| && ids[j] in keys && b == Pool.IndexIn(keys, ids[j]) % 64
      {
        if b in UsedMask(keys, ids) {
          if b in m {
            assert ids[|ids| - 1] == last;
          } else {
            var j :| 0 <= j < |init| && init[j] in keys && b == Pool.IndexIn(keys, init[j]) % 64;
            assert ids[j] == init[j];
          }
        } else {
          forall j | 0 <= j < |ids| && ids[j] in keys ensures b != Pool.IndexIn(keys, ids[j]) % 64 {
            if j < |init| {
              assert init[j] == ids[j];
            }
          }
        }
      }
    }
  }

  /** A child whose drawable sits among the first 64 entries keeps it
      through `scrapUnused`. */
  lemma ChildKeepsDrawable(keys: seq<int>, ids: seq<int>, j: int)
    requires Pool.Sorted(keys) && 0 <= j < |ids| && ids[j] in keys && Pool.IndexIn(keys, ids[j]) < 64
    ensures ids[j] in Pool.KeepMarked(keys, UsedMask(keys, ids), 0, Pool.Min(64, |keys|))
  {
    var i := Pool.IndexIn(keys, ids[j]);
    var used := UsedMask(keys, ids);
    assert i in used by {
      UsedMaskHas(keys, ids, j);
      assert 0 <= i < 64;
      assert i % 64 == i;
    }
    Pool.ScrapKeepsMarked(keys, used, i);
  }

  /** Each child with a drawable marks that drawable's bit. */
  lemma {:induction false} UsedMaskHas(keys: seq<int>, ids: seq<int>, j: int)
    requires 0 <= j < |ids| && ids[j] in keys
    ensures Pool.IndexIn(keys, ids[j]) % 64 in UsedMask(keys, ids)
  {
    if j < |ids| - 1 {
      assert ids[..|ids| - 1][j] == ids[j];
      UsedMaskHas(keys, ids[..|ids| - 1], j);
    }
  }

  // ---------------------------------------------------------------------------
  // what each child gets drawn

  /** The layers drawn for one child: an outer shadow in the first pass;
      fill, inner shadow and stroke in the second, the colours scaled by
      the view's alpha. */
  datatype Layers = Layers(outerShadow: bool, fill: Option<Int>, innerShadow: bool, stroke: Option<Int>)

  /** The conditions of `drawOuter` (the first pass runs only for outer
      shadows) and of `drawRemaining`, for one child with its effective
      specs. */
  function ItemLayers(inner: bool, viewRect: RectSpec, viewShadow: ShadowSpec, alpha: int): (l: Layers)
    reads viewRect, viewShadow
    ensures l.outerShadow ==> !inner
    ensures l.innerShadow ==> inner
    ensures l.outerShadow || l.innerShadow <==> Alpha(viewShadow.color) != 0
    ensures l.fill.Some? <==> viewRect.HasFill()
    ensures l.stroke.Some? <==> viewRect.HasStroke()
    ensures l.fill.Some? ==> l.fill.value == WithAlpha(viewRect.fillColor, alpha)
    ensures l.stroke.Some? ==> l.stroke.value == WithAlpha(viewRect.strokeColor, alpha)
    ensures l.fill.Some? ==> Shadows.WithoutAlpha(l.fill.value) == Shadows.WithoutAlpha(viewRect.fillColor)
    ensures l.stroke.Some? ==> Shadows.WithoutAlpha(l.stroke.value) == Shadows.WithoutAlpha(viewRect.strokeColor)
  {
    var visible := Alpha(viewShadow.color) != 0;
    var fill := Alpha(viewRect.fillColor) != 0;
    var innerShadow := inner && visible;
    var stroke := viewRect.HasStroke();
    if fill || innerShadow || stroke then
      Layers(!inner && visible,
             if fill then Some(WithAlpha(viewRect.fillColor, alpha)) else None,
             innerShadow,
             if stroke then Some(WithAlpha(viewRect.strokeColor, alpha)) else None)
    else
      Layers(!inner && visible, None, false, None)
  }

  /** A visible shadow is drawn exactly once, in the pass its kind calls
      for; a fully opaque view draws its colours as specified. */
  lemma ShadowDrawnOnce(inner: bool, viewRect: RectSpec, viewShadow: ShadowSpec)
    ensures var l := ItemLayers(inner, viewRect, viewShadow, 255);
            !(l.outerShadow && l.innerShadow) &&
            (l.fill.Some? ==> l.fill.value == viewRect.fillColor) &&
            (l.stroke.Some? ==> l.stroke.value == viewRect.strokeColor)
  {
    WithAlphaOpaque(viewRect.fillColor);
    WithAlphaOpaque(viewRect.strokeColor);
  }

  // ---------------------------------------------------------------------------
  // the decoration

  class RectItemsWithShadows {
    const factory: Shadows.ShadowState
    const rect: RectSpec
    const shadow: ShadowSpec
    const drawables: Pool.SparseArray<OuterShadows.ShadowDrawable>
    const scrap: Pool.ArrayList<OuterShadows.ShadowDrawable>

    predicate Valid()
      reads this, drawables
    {
      drawables.Valid()
    }

    /** The three-argument constructor: a zero shadow state of the given
        kind, the default specs, an empty pool. */
    constructor (rect: RectSpec, shadow: ShadowSpec, inner: bool)
      ensures Valid() && this.rect == rect && this.shadow == shadow
      ensures factory.inner == inner && factory.cornerRadius == 0 &&
              factory.shadow.Value() == ShadowValue(Num(0.0), Num(0.0), Num(0.0), 0)
      ensures fresh(drawables) && fresh(scrap) && drawables.keys == [] && scrap.items == []
    {
      var spec := new ShadowSpec(Num(0.0), Num(0.0), Num(0.0), 0);
      factory := new Shadows.ShadowState(0, spec, inner);
      this.rect, this.shadow := rect, shadow;
      drawables := new Pool.SparseArray();
      scrap := new Pool.ArrayList();
    }

    /** `fix(ShadowSpec)`: replaces the sentinel fields of `sh` with the
        decoration's defaults. */
    method FixShadow(sh: ShadowSpec)
      modifies sh
      ensures sh.Value() == FixedShadow(old(sh.Value()), old(shadow.Value()))
    {
      if sh.dx.NaN? { sh.dx := shadow.dx; }
      if sh.dy.NaN? { sh.dy := shadow.dy; }
      if sh.radius.NaN? { sh.radius := shadow.radius; }
      if sh.color == 1 { sh.color := shadow.color; }
    }

    /** `fix(RectSpec)`. */
    method FixRect(r: RectSpec)
      modifies r
      ensures r.Value() == FixedRect(old(r.Value()), old(rect.Value()))
    {
      if r.fillColor == 1 { r.fillColor := rect.fillColor; }
      if r.cornerRadius == MinInt { r.cornerRadius := rect.cornerRadius; }
      if r.strokeColor == 1 { r.strokeColor := rect.strokeColor; }
      if r.strokeWidth.NaN? { r.strokeWidth := rect.strokeWidth; }
    }

    /** The effective specs of a child: its tags, or the decoration's. */
    function ViewRect(v: View): RectSpec
      reads v
    {
      if v.rectTag.Some? then v.rectTag.value else rect
    }

    function ViewShadow(v: View): ShadowSpec
      reads v
    {
      if v.shadowTag.Some? then v.shadowTag.value else shadow
    }

    /** `normalize(parent)`: fixes every child's tags, marks the drawables
        of the children, and scraps the unmarked ones. Afterwards no tag
        holds a sentinel where the defaults hold none, and the pool keeps
        exactly the marked entries among its first 64. */
    method Normalize(children: seq<View>)
      requires Valid()
      modifies ChildRects(children), ChildShadows(children), drawables, scrap
      ensures Valid()
      ensures rect.Value() == old(rect.Value()) && shadow.Value() == old(shadow.Value())
      ensures RectsFixed(children, |children|, rect.Value()) && ShadowsFixed(children, |children|, shadow.Value())
      ensures forall j :: 0 <= j < |children| && children[j].rectTag.Some? ==>
                children[j].rectTag.value.Value() == FixedRect(old(children[j].rectTag.value.Value()), rect.Value())
      ensures forall j :: 0 <= j < |children| && children[j].shadowTag.Some? ==>
                children[j].shadowTag.value.Value() == FixedShadow(old(children[j].shadowTag.value.Value()), shadow.Value())
      ensures var used, m := UsedMask(old(drawables.keys), Identities(children)), Pool.Min(64, old(drawables.Size()));
              drawables.keys == Pool.KeepMarked(old(drawables.keys), used, 0, m) &&
              drawables.values == Pool.KeepMarked(old(drawables.values), used, 0, m) &&
              scrap.items == old(scrap.items) + Pool.DropUnmarked(old(drawables.values), used, 0, m) +
                             Pool.Reversed(old(drawables.values)[m..])
    {
      var usedDrawables := MarkChildren(children);
      Pool.ScrapUnused(drawables, scrap, usedDrawables);
    }

    /** The loop of `normalize`: fixes each child's tags and collects the
        used mask. */
    method MarkChildren(children: seq<View>) returns (usedDrawables: set<nat>)
      requires Valid()
      modifies ChildRects(children), ChildShadows(children)
      ensures rect.Value() == old(rect.Value()) && shadow.Value() == old(shadow.Value())
      ensures RectsFixed(children, |children|, rect.Value()) && ShadowsFixed(children, |children|, shadow.Value())
      ensures forall j :: 0 <= j < |children| && children[j].rectTag.Some? ==>
                children[j].rectTag.value.Value() == FixedRect(old(children[j].rectTag.value.Value()), rect.Value())
      ensures forall j :: 0 <= j < |children| && children[j].shadowTag.Some? ==>
                children[j].shadowTag.value.Value() == FixedShadow(old(children[j].shadowTag.value.Value()), shadow.Value())
      ensures usedDrawables == UsedMask(drawables.keys, Identities(children))
    {
      ghost var d, e := rect.Value(), shadow.Value();
      ghost var keys0, rt0, st0 := drawables.keys, RectTags(children), ShadowTags(children);
      ghost var rv0, sv0 := RectValues(children), ShadowValues(children);
      usedDrawables := {};
      var i := 0;
      while i < |children|
        invariant Marking(children, i, usedDrawables, d, e, keys0, rt0, st0)
        invariant RectsFixing(children, i, d, rv0) && ShadowsFixing(children, i, e, sv0)
      {
        TagsOfChild(children, i);
        usedDrawables := MarkChild(children, i, usedDrawables, d, e, keys0, rt0, st0, rv0, sv0);
        i := i + 1;
      }
      assert Identities(children)[..|children|] == Identities(children);
    }

    /** The state of the loop of `normalize` after `i` children: the
        defaults, the drawables' keys and which spec each view is tagged
        with are as they were, the tags of the first `i` views are fixed,
        and `used` is the mask of their identities. */
    predicate Marking(children: seq<View>, i: int, used: set<nat>, d: RectValue, e: ShadowValue,
                      keys0: seq<int>, rt0: seq<Option<RectSpec>>, st0: seq<Option<ShadowSpec>>)
      reads this, rect, shadow, drawables, children, ChildRects(children), ChildShadows(children)
    {
      0 <= i <= |children| &&
      rect.Value() == d && shadow.Value() == e && drawables.keys == keys0 &&
      RectTags(children) == rt0 && ShadowTags(children) == st0 &&
      RectsFixed(children, i, d) && ShadowsFixed(children, i, e) &&
      used == UsedMask(keys0, Identities(children)[..i])
    }

    /** One turn of the loop of `normalize`: fixes child `i`'s tags and
        adds the bit of its drawable, if it has one, to the mask. */
    method MarkChild(children: seq<View>, i: int, used: set<nat>, ghost d: RectValue, ghost e: ShadowValue,
                     ghost keys0: seq<int>, ghost rt0: seq<Option<RectSpec>>, ghost st0: seq<Option<ShadowSpec>>,
                     ghost rv0: seq<Option<RectValue>>, ghost sv0: seq<Option<ShadowValue>>)
      returns (usedDrawables: set<nat>)
      requires i < |children| && Marking(children, i, used, d, e, keys0, rt0, st0)
      requires RectsFixing(children, i, d, rv0) && ShadowsFixing(children, i, e, sv0)
      modifies children[i].Tags()
      ensures Marking(children, i + 1, usedDrawables, d, e, keys0, rt0, st0)
      ensures RectsFixing(children, i + 1, d, rv0) && ShadowsFixing(children, i + 1, e, sv0)
    {
      var v := children[i];
      ghost var ids := Identities(children);
      FixChild(children, i, rv0, sv0);
      usedDrawables := used;
      var iof := drawables.IndexOfKey(v.identity);
      if iof >= 0 {
        usedDrawables := usedDrawables + {iof % 64};
      }
      assert usedDrawables == used + Pool.UsedMarkFor(keys0, ids[i]);
      UsedMaskStep(keys0, ids, i);
    }

    /** Fixes child `i`'s tags and carries the progress of the fixing over
        all the views: each tag changes only through its own fix. */
    method FixChild(children: seq<View>, i: int, ghost rv0: seq<Option<RectValue>>, ghost sv0: seq<Option<ShadowValue>>)
      requires 0 <= i < |children|
      requires RectsFixed(children, i, rect.Value()) && ShadowsFixed(children, i, shadow.Value())
      requires RectsFixing(children, i, rect.Value(), rv0) && ShadowsFixing(children, i, shadow.Value(), sv0)
      modifies children[i].Tags()
      ensures rect.Value() == old(rect.Value()) && shadow.Value() == old(shadow.Value())
      ensures drawables.keys == old(drawables.keys)
      ensures RectTags(children) == old(RectTags(children)) && ShadowTags(children) == old(ShadowTags(children))
      ensures RectsFixed(children, i + 1, rect.Value()) && ShadowsFixed(children, i + 1, shadow.Value())
      ensures RectsFixing(children, i + 1, rect.Value(), rv0) && ShadowsFixing(children, i + 1, shadow.Value(), sv0)
    {
      ghost var d, e := rect.Value(), shadow.Value();
      var v := children[i];
      label pre:
      FixTags(children, i);
      forall j | 0 <= j < |children| && children[j].rectTag.Some?
        ensures rv0[j].Some? && (children[j].rectTag.value.Value() == FixedRect(rv0[j].value, d) ||
                                 (i + 1 <= j && children[j].rectTag.value.Value() == rv0[j].value))
      {
        FixRectProperties(rv0[j].value, d);
        if children[j].rectTag != v.rectTag {
          assert children[j].rectTag.value.Value() == old@pre(children[j].rectTag.value.Value());
        }
      }
      forall j | 0 <= j < |children| && children[j].shadowTag.Some?
        ensures sv0[j].Some? && (children[j].shadowTag.value.Value() == FixedShadow(sv0[j].value, e) ||
                                 (i + 1 <= j && children[j].shadowTag.value.Value() == sv0[j].value))
      {
        FixShadowProperties(sv0[j].value, e);
        if children[j].shadowTag != v.shadowTag {
          assert children[j].shadowTag.value.Value() == old@pre(children[j].shadowTag.value.Value());
        }
      }
    }

    /** Lines 62-66 of `normalize` for child `i`: fixes its shadow tag,
        then its rect tag, keeping the earlier children's tags fixed. */
    method FixTags(children: seq<View>, i: int)
      requires 0 <= i < |children|
      requires RectsFixed(children, i, rect.Value()) && ShadowsFixed(children, i, shadow.Value())
      modifies children[i].Tags()
      ensures rect.Value() == old(rect.Value()) && shadow.Value() == old(shadow.Value())
      ensures drawables.keys == old(drawables.keys)
      ensures RectTags(children) == old(RectTags(children)) && ShadowTags(children) == old(ShadowTags(children))
      ensures RectsFixed(children, i + 1, rect.Value()) && ShadowsFixed(children, i + 1, shadow.Value())
      ensures children[i].shadowTag.Some? ==>
                children[i].shadowTag.value.Value() == FixedShadow(old(children[i].shadowTag.value.Value()), shadow.Value())
      ensures children[i].rectTag.Some? ==>
                children[i].rectTag.value.Value() == FixedRect(old(children[i].rectTag.value.Value()), rect.Value())
    {
      ghost var d, e := rect.Value(), shadow.Value();
      var v := children[i];
      if v.shadowTag.Some? {
        var sh := v.shadowTag.value;
        FixShadowProperties(sh.Value(), e);
        label before:
        FixShadow(sh);
        forall j | 0 <= j <= i
          ensures children[j].shadowTag.Some? ==>
                    FixedShadow(children[j].shadowTag.value.Value(), e) == children[j].shadowTag.value.Value()
          ensures j < i && children[j].rectTag.Some? ==>
                    FixedRect(children[j].rectTag.value.Value(), d) == children[j].rectTag.value.Value()
        {
          if children[j].shadowTag.Some? && children[j].shadowTag.value != sh {
            assert children[j].shadowTag.value.Value() == old@before(children[j].shadowTag.value.Value());
          }
          if children[j].rectTag.Some? {
            assert children[j].rectTag.value.Value() == old@before(children[j].rectTag.value.Value());
          }
        }
      }
      assert RectsFixed(children, i, d);
      if v.rectTag.Some? {
        var r := v.rectTag.value;
        FixRectProperties(r.Value(), d);
        label before:
        FixRect(r);
        forall j | 0 <= j <= i
          ensures children[j].rectTag.Some? ==>
                    FixedRect(children[j].rectTag.value.Value(), d) == children[j].rectTag.value.Value()
          ensures children[j].shadowTag.Some? ==>
                    FixedShadow(children[j].shadowTag.value.Value(), e) == children[j].shadowTag.value.Value()
        {
          if children[j].rectTag.Some? && children[j].rectTag.value != r {
            assert children[j].rectTag.value.Value() == old@before(children[j].rectTag.value.Value());
          }
          if children[j].shadowTag.Some? {
            assert children[j].shadowTag.value.Value() == old@before(children[j].shadowTag.value.Value());
          }
        }
      }
    }
  }

  /** The rect tags of some views. */
  function ChildRects(children: seq<View>): set<RectSpec>
    reads children
  {
    RectObjects(RectTags(children))
  }

  /** The shadow tags of some views. */
  function ChildShadows(children: seq<View>): set<ShadowSpec>
    reads children
  {
    ShadowObjects(ShadowTags(children))
  }

  /** The tags of view `i` are among the tags of the views. */
  lemma TagsOfChild(children: seq<View>, i: int)
    requires 0 <= i < |children|
    ensures children[i].Tags() <= ChildRects(children) + ChildShadows(children)
  {
    var v := children[i];
    assert v.rectTag.Some? ==> RectTags(children)[i] == v.rectTag;
    assert v.shadowTag.Some? ==> ShadowTags(children)[i] == v.shadowTag;
  }

  function RectTags(children: seq<View>): (tags: seq<Option<RectSpec>>)
    reads children
    ensures |tags| == |children| && forall j :: 0 <= j < |children| ==> tags[j] == children[j].rectTag
  {
    seq(|children|, j requires 0 <= j < |children| reads children => children[j].rectTag)
  }

  function ShadowTags(children: seq<View>): (tags: seq<Option<ShadowSpec>>)
    reads children
    ensures |tags| == |children| && forall j :: 0 <= j < |children| ==> tags[j] == children[j].shadowTag
  {
    seq(|children|, j requires 0 <= j < |children| reads children => children[j].shadowTag)
  }

  function RectObjects(tags: seq<Option<RectSpec>>): set<RectSpec>
  {
    set j | 0 <= j < |tags| && tags[j].Some? :: tags[j].value
  }

  function ShadowObjects(tags: seq<Option<ShadowSpec>>): set<ShadowSpec>
  {
    set j | 0 <= j < |tags| && tags[j].Some? :: tags[j].value
  }

  /** The values the rect tags of some views hold. */
  function RectValues(children: seq<View>): (vs: seq<Option<RectValue>>)
    reads children, ChildRects(children)
    ensures |vs| == |children|
    ensures forall j :: 0 <= j < |children| ==>
              vs[j] == if children[j].rectTag.Some? then Some(children[j].rectTag.value.Value()) else None
  {
    seq(|children|, j requires 0 <= j < |children| reads children, ChildRects(children) =>
      if children[j].rectTag.Some? then Some(children[j].rectTag.value.Value()) else None)
  }

  function ShadowValues(children: seq<View>): (vs: seq<Option<ShadowValue>>)
    reads children, ChildShadows(children)
    ensures |vs| == |children|
    ensures forall j :: 0 <= j < |children| ==>
              vs[j] == if children[j].shadowTag.Some? then Some(children[j].shadowTag.value.Value()) else None
  {
    seq(|children|, j requires 0 <= j < |children| reads children, ChildShadows(children) =>
      if children[j].shadowTag.Some? then Some(children[j].shadowTag.value.Value()) else None)
  }

  /** Partway through `normalize`: the rect tag of each of the first `n`
      views holds its starting value `rv0` fixed against `d`; a later
      view's tag holds that, or still its starting value (a tag shared
      with an earlier view is already fixed). */
  predicate RectsFixing(children: seq<View>, n: int, d: RectValue, rv0: seq<Option<RectValue>>)
    reads children, ChildRects(children)
  {
    |rv0| == |children| &&
    forall j :: 0 <= j < |children| && children[j].rectTag.Some? ==>
      rv0[j].Some? &&
      (children[j].rectTag.value.Value() == FixedRect(rv0[j].value, d) ||
       (n <= j && children[j].rectTag.value.Value() == rv0[j].value))
  }

  predicate ShadowsFixing(children: seq<View>, n: int, e: ShadowValue, sv0: seq<Option<ShadowValue>>)
    reads children, ChildShadows(children)
  {
    |sv0| == |children| &&
    forall j :: 0 <= j < |children| && children[j].shadowTag.Some? ==>
      sv0[j].Some? &&
      (children[j].shadowTag.value.Value() == FixedShadow(sv0[j].value, e) ||
       (n <= j && children[j].shadowTag.value.Value() == sv0[j].value))
  }

  /** The rect tags of the first `n` views hold no sentinel `d` would
      replace. */
  predicate RectsFixed(children: seq<View>, n: int, d: RectValue)
    reads children, ChildRects(children)
    requires 0 <= n <= |children|
  {
    forall j :: 0 <= j < n && children[j].rectTag.Some? ==>
      FixedRect(children[j].rectTag.value.Value(), d) == children[j].rectTag.value.Value()
  }

  predicate ShadowsFixed(children: seq<View>, n: int, e: ShadowValue)
    reads children, ChildShadows(children)
    requires 0 <= n <= |children|
  {
    forall j :: 0 <= j < n && children[j].shadowTag.Some? ==>
      FixedShadow(children[j].shadowTag.value.Value(), e) == children[j].shadowTag.value.Value()
  }
}
