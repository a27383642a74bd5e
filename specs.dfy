/** The two value classes callers configure the library with: the shadow
    (`ShadowSpec`) and the rounded rectangle (`RectSpec`). Their fields are
    package-private and are rewritten in place by the drawables and by the
    per-item renderer, so both are classes here. */
module Specs {
  import opened Java
  import opened Numbers
  import opened Graphics

  // ===========================================================================
  // ShadowSpec

  /** What `new ShadowSpec(dx, dy, radius, color)` checks, in its order:
      `dx` finite, `dy` finite, `radius` finite and non-negative. */
  function CheckShadow(dx: Float, dy: Float, radius: Float): (r: Outcome)
    ensures r.Pass? <==> dx.Num? && dy.Num? && radius.Num? && radius.v >= 0.0
    ensures !dx.Num? ==> r == Fail(MustBeFinite("dx"))
    ensures dx.Num? && !dy.Num? ==> r == Fail(MustBeFinite("dy"))
    ensures dx.Num? && dy.Num? && !radius.Num? ==> r == Fail(MustBeFinite("radius"))
    ensures dx.Num? && dy.Num? && radius.Num? && radius.v < 0.0 ==> r == Fail(MustBeNonNegative("radius"))
  {
    match RequireFinite(dx, "dx")
    case Err(e) => Fail(e)
    case Ok(_) =>
      match RequireFinite(dy, "dy")
      case Err(e) => Fail(e)
      case Ok(_) =>
        match RequireNonNegativeF(radius, "radius")
        case Err(e) => Fail(e)
        case Ok(_) => Pass
  }

  /** The paddings a shadow needs on each side: the blur radius rounded up
      everywhere, plus the rounded offset on the side the shadow is moved
      to. The widened side is a Java `int` sum, so it wraps around once the
      blur and the offset together pass `Integer.MAX_VALUE`. This is the
      reference that `ShadowSpec.InferPaddings` computes. */
  function ShadowPaddings(dx: Float, dy: Float, radius: Float): (p: Rect)
    ensures MinInt <= p.left <= MaxInt && MinInt <= p.top <= MaxInt
    ensures MinInt <= p.right <= MaxInt && MinInt <= p.bottom <= MaxInt
    ensures Ceil(dx) > 0 ==> p.left == Ceil(radius)
    ensures Ceil(dx) <= 0 ==> p.right == Ceil(radius)
    ensures Ceil(dy) > 0 ==> p.top == Ceil(radius)
    ensures Ceil(dy) <= 0 ==> p.bottom == Ceil(radius)
    ensures var c: int, cx: int := Ceil(radius), Ceil(dx);
            c + Abs(cx) <= MaxInt ==> p.left >= c && p.right >= c && p.left + p.right == 2 * c + Abs(cx)
    ensures var c: int, cy: int := Ceil(radius), Ceil(dy);
            c + Abs(cy) <= MaxInt ==> p.top >= c && p.bottom >= c && p.top + p.bottom == 2 * c + Abs(cy)
    ensures var c: int, cx: int := Ceil(radius), Ceil(dx);
            c + Abs(cx) > MaxInt ==>
              var widened := if cx > 0 then p.right else p.left;
              widened == c + Abs(cx) - TwoTo32 && widened < 0
    ensures var c: int, cy: int := Ceil(radius), Ceil(dy);
            c + Abs(cy) > MaxInt ==>
              var widened := if cy > 0 then p.bottom else p.top;
              widened == c + Abs(cy) - TwoTo32 && widened < 0
  {
    var c: int, cx: int, cy: int := Ceil(radius), Ceil(dx), Ceil(dy);
    Rect(if cx > 0 then c else Wrap32(c + Abs(cx)), if cy > 0 then c else Wrap32(c + Abs(cy)),
         if cx > 0 then Wrap32(c + Abs(cx)) else c, if cy > 0 then Wrap32(c + Abs(cy)) else c)
  }

  function Abs(x: int): nat { if x >= 0 then x else -x }

  /** The inferred paddings fit an `int` on both axes: no side wraps. */
  predicate PaddingsFit(dx: Float, dy: Float, radius: Float)
  {
    Ceil(radius) + Abs(Ceil(dx)) <= MaxInt && Ceil(radius) + Abs(Ceil(dy)) <= MaxInt
  }

  /** A `ShadowSpec` as a value, for comparisons. */
  datatype ShadowValue = ShadowValue(dx: Float, dy: Float, radius: Float, color: Int)

  /** `ShadowSpec`: offset, blur radius and colour of a shadow. */
  class ShadowSpec {
    var dx: Float
    var dy: Float
    var radius: Float
    var color: Int

    /** `new ShadowSpec(dx, dy, radius, color)` on arguments it accepts. */
    constructor (dx: Float, dy: Float, radius: Float, color: Int)
      requires CheckShadow(dx, dy, radius).Pass?
      ensures this.dx == dx && this.dy == dy && this.radius == radius && this.color == color
    {
      this.dx, this.dy, this.radius, this.color := dx, dy, radius, color;
    }

    /** The copy constructor `new ShadowSpec(other)` (a field-by-field copy). */
    constructor Copy(other: ShadowSpec)
      ensures Value() == old(other.Value())
    {
      dx, dy, radius, color := other.dx, other.dy, other.radius, other.color;
    }

    /** `new ShadowSpec(dx, dy, radius, color)` with its exception as a
        value: a fresh spec holding exactly the arguments, or the first
        failed check. */
    static method New(dx: Float, dy: Float, radius: Float, color: Int) returns (r: Result<ShadowSpec>)
      ensures r.Ok? <==> CheckShadow(dx, dy, radius).Pass?
      ensures r.Err? ==> Fail(r.error) == CheckShadow(dx, dy, radius)
      ensures r.Ok? ==> fresh(r.value) && r.value.Value() == ShadowValue(dx, dy, radius, color)
    {
      match CheckShadow(dx, dy, radius)
      case Fail(e) => r := Err(e);
      case Pass =>
        var s := new ShadowSpec(dx, dy, radius, color);
        r := Ok(s);
    }

    function Value(): ShadowValue
      reads this
    {
      ShadowValue(dx, dy, radius, color)
    }

    /** `inferPaddings()`: starts all four sides at `ceil(radius)` and then
        widens the side the shadow is offset to, with `int` arithmetic. */
    method InferPaddings() returns (p: Rect)
      ensures p == ShadowPaddings(dx, dy, radius)
    {
      var l: int, t: int, r: int, b: int;
      l := Ceil(radius);
      t, r, b := l, l, l;
      var d: int := Ceil(dx);
      if d > 0 {
        r := Wrap32(r + d);
      } else {
        l := Wrap32(l - d);
      }
      d := Ceil(dy);
      if d > 0 {
        b := Wrap32(b + d);
      } else {
        t := Wrap32(t - d);
      }
      p := Rect(l, t, r, b);
    }

    /** `equals`: same colour and the three floats equal under
        `Float.compare` (so NaN equals NaN). */
    predicate Equals(that: ShadowSpec)
      reads this, that
      ensures Equals(that) <==> Value() == that.Value()
    {
      this == that ||
      (color == that.color && FSame(that.dx, dx) && FSame(that.dy, dy) && FSame(that.radius, radius))
    }

    /** `setFrom(other)`: copies all four fields and reports which ones
        changed, bit 0 for dx, 1 for dy, 2 for radius and 3 for colour. */
    method SetFrom(other: ShadowSpec) returns (changes: bv32)
      modifies this
      ensures Value() == old(other.Value())
      ensures changes & !0xF == 0
      ensures (changes & 1 != 0) == !FSame(old(dx), old(other.dx))
      ensures (changes & 2 != 0) == !FSame(old(dy), old(other.dy))
      ensures (changes & 4 != 0) == !FSame(old(radius), old(other.radius))
      ensures (changes & 8 != 0) == (old(color) != old(other.color))
    {
      changes := 0;
      if !FSame(dx, other.dx) { changes := changes | 1; }
      if !FSame(dy, other.dy) { changes := changes | 2; }
      if !FSame(radius, other.radius) { changes := changes | 4; }
      if color != other.color { changes := changes | 8; }
      dx, dy, radius, color := other.dx, other.dy, other.radius, other.color;
    }

    /** The `dx(float)` setter: a plain store. */
    method SetDx(v: Float)
      modifies this
      ensures Value() == old(Value()).(dx := v)
    {
      dx := v;
    }

    /** The `dy(float)` setter: a plain store. */
    method SetDy(v: Float)
      modifies this
      ensures Value() == old(Value()).(dy := v)
    {
      dy := v;
    }

    /** The `radius(float)` setter: a plain store. */
    method SetRadius(v: Float)
      modifies this
      ensures Value() == old(Value()).(radius := v)
    {
      radius := v;
    }
  }

  /** `equals` is an equivalence: reflexive, symmetric and transitive. */
  lemma ShadowEqualsIsEquivalence(a: ShadowSpec, b: ShadowSpec, c: ShadowSpec)
    ensures a.Equals(a)
    ensures a.Equals(b) == b.Equals(a)
    ensures a.Equals(b) && b.Equals(c) ==> a.Equals(c)
  {
  }

  /** The padding example: offset (2, 3) and radius 20 need 20 on the left
      and top, 22 on the right and 23 at the bottom. */
  lemma ShadowPaddingsExample()
    ensures ShadowPaddings(Num(2.0), Num(3.0), Num(20.0)) == Rect(20, 20, 22, 23)
  {
  }

  /** An offset of 2e9 with a blur of 2e8 overflows `int`: the right
      padding wraps to a large negative number. */
  lemma ShadowPaddingsOverflowExample()
    ensures ShadowPaddings(Num(2000000000.0), Num(0.0), Num(200000000.0)) == Rect(200000000, 200000000, -2094967296, 200000000)
  {
  }

  /** Hex digit `k` of the colour, counting from the least significant:
      `color >>> 4k & 15`. */
  function Nibble(u: nat, k: nat): nat
  {
    u / Pow16(k) % 16
  }

  /** The private `appendColor` of `ShadowSpec`: appends `#`, the two
      alpha digits unless the colour is opaque, then the six colour digits,
      one `HEX[color >>> 4k & 15]` at a time. It writes the same text as
      `Numbers.appendColor`. */
  method AppendShadowColor(to: string, color: Int) returns (r: string)
    ensures r == AppendColor(to, color)
  {
    var u := Unsigned(color);
    r := to + ['#'];
    if Alpha(color) != 0xFF {
      r := r + [HexChar(Nibble(u, 7))] + [HexChar(Nibble(u, 6))];
    }
    r := r + [HexChar(Nibble(u, 5))] + [HexChar(Nibble(u, 4))];
    r := r + [HexChar(Nibble(u, 3))] + [HexChar(Nibble(u, 2))];
    r := r + [HexChar(Nibble(u, 1))] + [HexChar(Nibble(u, 0))];
    ghost var n := if Alpha(color) == 0xFF then 6 else 8;
    forall i | 0 <= i < n
      ensures Digits(u, n)[i] == HexChar(Nibble(u, n - 1 - i))
    {
      DigitsAt(u, n, i);
    }
    assert r == to + ['#'] + Digits(u, n);
  }

  // ===========================================================================
  // RectSpec

  /** `Color.TRANSPARENT`. */
  const Transparent: Int := 0

  /** What `new RectSpec(...)` checks, in its order: `cornerRadius >= 0`,
      then `strokeWidth` finite and non-negative. */
  function CheckRect(cornerRadius: Int, strokeWidth: Float): (r: Outcome)
    ensures r.Pass? <==> cornerRadius >= 0 && strokeWidth.Num? && strokeWidth.v >= 0.0
    ensures cornerRadius < 0 ==> r == Fail(MustBeNonNegative("cornerRadius"))
    ensures cornerRadius >= 0 && !strokeWidth.Num? ==> r == Fail(MustBeFinite("strokeWidth"))
    ensures cornerRadius >= 0 && strokeWidth.Num? && strokeWidth.v < 0.0 ==>
              r == Fail(MustBeNonNegative("strokeWidth"))
  {
    match RequireNonNegativeI(cornerRadius, "cornerRadius")
    case Err(e) => Fail(e)
    case Ok(_) =>
      match RequireNonNegativeF(strokeWidth, "strokeWidth")
      case Err(e) => Fail(e)
      case Ok(_) => Pass
  }

  /** A `RectSpec` as a value, for comparisons. */
  datatype RectValue = RectValue(fillColor: Int, cornerRadius: Int, strokeColor: Int, strokeWidth: Float)
  {
    /** `hasStroke()`: a non-transparent stroke colour and a positive width. */
    predicate HasStroke()
    {
      Alpha(strokeColor) != 0 && FLess(Num(0.0), strokeWidth)
    }
  }

  /** `RectSpec`: fill colour, corner radius and stroke of a rounded rectangle. */
  class RectSpec {
    var fillColor: Int
    var cornerRadius: Int
    var strokeColor: Int
    var strokeWidth: Float

    /** `new RectSpec(fill, cornerRadius, strokeColor, strokeWidth)` on
        arguments it accepts. */
    constructor (fillColor: Int, cornerRadius: Int, strokeColor: Int, strokeWidth: Float)
      requires CheckRect(cornerRadius, strokeWidth).Pass?
      ensures Value() == RectValue(fillColor, cornerRadius, strokeColor, strokeWidth)
    {
      this.fillColor, this.cornerRadius := fillColor, cornerRadius;
      this.strokeColor, this.strokeWidth := strokeColor, strokeWidth;
    }

    /** The four-argument constructor with its exception as a value. */
    static method New(fillColor: Int, cornerRadius: Int, strokeColor: Int, strokeWidth: Float)
      returns (r: Result<RectSpec>)
      ensures r.Ok? <==> CheckRect(cornerRadius, strokeWidth).Pass?
      ensures r.Err? ==> Fail(r.error) == CheckRect(cornerRadius, strokeWidth)
      ensures r.Ok? ==> (fresh(r.value) &&
                         r.value.Value() == RectValue(fillColor, cornerRadius, strokeColor, strokeWidth))
    {
      match CheckRect(cornerRadius, strokeWidth)
      case Fail(e) => r := Err(e);
      case Pass =>
        var s := new RectSpec(fillColor, cornerRadius, strokeColor, strokeWidth);
        r := Ok(s);
    }

    /** `new RectSpec(fill, cornerRadius)`: transparent stroke of width 0,
        so the only possible failure is a negative corner radius, and the
        result never has a stroke. */
    static method NewNoStroke(fillColor: Int, cornerRadius: Int) returns (r: Result<RectSpec>)
      ensures r.Ok? <==> cornerRadius >= 0
      ensures r.Err? ==> r.error == MustBeNonNegative("cornerRadius")
      ensures r.Ok? ==> (fresh(r.value) &&
                         r.value.Value() == RectValue(fillColor, cornerRadius, Transparent, Num(0.0)) &&
                         !r.value.HasStroke())
    {
      r := New(fillColor, cornerRadius, Transparent, Num(0.0));
    }

    function Value(): RectValue
      reads this
    {
      RectValue(fillColor, cornerRadius, strokeColor, strokeWidth)
    }

    /** `hasFill()`: the fill colour's alpha byte is non-zero. */
    predicate HasFill()
      reads this
    {
      Alpha(fillColor) != 0
    }

    /** `hasStroke()`. */
    predicate HasStroke()
      reads this
    {
      Value().HasStroke()
    }

    /** `equals`: all four fields equal, the width under `Float.compare`. */
    predicate Equals(that: RectSpec)
      reads this, that
      ensures Equals(that) <==> Value() == that.Value()
    {
      this == that ||
      (fillColor == that.fillColor && cornerRadius == that.cornerRadius &&
       strokeColor == that.strokeColor && FSame(strokeWidth, that.strokeWidth))
    }

    /** The part of `toString()` that is always present. */
    function TextHead(intText: int -> string): string
      reads this
    {
      AppendColor("RectSpec(fillColor=", fillColor) + ", cornerRadius=" + intText(cornerRadius)
    }

    /** `toString()`, given Java's decimal text of an `int` and of a
        `float`: the fixed head, then the stroke colour only when it is not
        transparent, then the stroke width only when it is not 0, then `)`. */
    function ToString(intText: int -> string, floatText: Float -> string): string
      reads this
    {
      var sb := TextHead(intText);
      var sb := WithStrokeColor(sb, strokeColor);
      var sb := if FNe(strokeWidth, Num(0.0)) then sb + ", strokeWidth=" + floatText(strokeWidth) else sb;
      sb + ")"
    }
  }

  /** The stroke-colour step of `RectSpec.toString()`: nothing for a
      transparent colour, otherwise `, strokeColor=#...` after `sb`. */
  function WithStrokeColor(sb: string, strokeColor: Int): string
  {
    if strokeColor != Transparent then AppendColor(sb + ", strokeColor=", strokeColor) else sb
  }

  lemma StrokeColorStep(sb: string, strokeColor: Int)
    ensures var c := WithStrokeColor(sb, strokeColor);
            |c| == |sb| + (if strokeColor != Transparent then 14 + (if Alpha(strokeColor) == 0xFF then 7 else 9) else 0) &&
            c[..|sb|] == sb &&
            (strokeColor != Transparent ==> c[|sb|..|sb| + 15] == ", strokeColor=#")
  {
    if strokeColor != Transparent {
      var to := sb + ", strokeColor=";
      var c := AppendColor(to, strokeColor);
      assert c[..|to|] == to && c[|to|] == '#';
      assert c[..|sb|] == to[..|sb|];
      assert c[|sb|..|sb| + 15] == to[|sb|..] + ['#'];
    }
  }

  /** `RectSpec.toString()` leaves out exactly the fields at their defaults:
      with a transparent stroke of width 0 the text is the head and `)`;
      a visible stroke colour shows up right after the head; a non-zero
      width shows up at the end. */
  lemma RectTextOmissions(s: RectSpec, intText: int -> string, floatText: Float -> string)
    ensures var head, r := s.TextHead(intText), s.ToString(intText, floatText);
            |head| < |r| && r[..|head|] == head && r[|r| - 1] == ')'
    ensures s.strokeColor == Transparent && !FNe(s.strokeWidth, Num(0.0)) ==>
              s.ToString(intText, floatText) == s.TextHead(intText) + ")"
    ensures var head, r := s.TextHead(intText), s.ToString(intText, floatText);
            s.strokeColor != Transparent ==>
              |head| + 15 <= |r| && r[|head|..|head| + 15] == ", strokeColor=#"
    ensures var r, tail := s.ToString(intText, floatText), ", strokeWidth=" + floatText(s.strokeWidth) + ")";
            FNe(s.strokeWidth, Num(0.0)) ==> |tail| <= |r| && r[|r| - |tail|..] == tail
    ensures |s.ToString(intText, floatText)| ==
              |s.TextHead(intText)| + 1
              + (if s.strokeColor != Transparent then 14 + (if Alpha(s.strokeColor) == 0xFF then 7 else 9) else 0)
              + (if FNe(s.strokeWidth, Num(0.0)) then 14 + |floatText(s.strokeWidth)| else 0)
  {
    var head := s.TextHead(intText);
    var c := WithStrokeColor(head, s.strokeColor);
    StrokeColorStep(head, s.strokeColor);
    var tail := if FNe(s.strokeWidth, Num(0.0)) then ", strokeWidth=" + floatText(s.strokeWidth) + ")" else ")";
    var r := c + tail;
    assert r == s.ToString(intText, floatText);
    assert r[..|c|] == c;
    assert r[..|head|] == c[..|head|];
    if s.strokeColor != Transparent {
      assert r[|head|..|head| + 15] == c[|head|..|head| + 15];
    }
  }

  /** `equals` on rectangle specs is an equivalence: reflexive, symmetric and transitive. */
  lemma RectEqualsIsEquivalence(a: RectSpec, b: RectSpec, c: RectSpec)
    ensures a.Equals(a)
    ensures a.Equals(b) == b.Equals(a)
    ensures a.Equals(b) && b.Equals(c) ==> a.Equals(c)
  {
  }
}
