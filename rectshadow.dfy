/** `RectShadow`, a shadow dropped outside a rounded rectangle. It caches
    two shaders, a radial one for the corners and a linear one for the
    edges; each setter clears the shaders its change affects and `draw`
    builds only the missing ones. The class keeps its own constant state
    (corner radius and shadow spec). */
module OuterShadows {
  import opened Java
  import opened Numbers
  import opened Graphics
  import opened Specs
  import opened Shadows
  import InnerShadows

  /** `sqrt(dx * dx + dy * dy)` in float arithmetic: NaN if either offset
      is NaN, infinite if either is infinite, otherwise the non-negative
      root (float rounding is not modelled). */
  predicate IsHypot(h: Float, dx: Float, dy: Float)
  {
    if dx.NaN? || dy.NaN? then h.NaN?
    else if dx.Inf? || dy.Inf? then h == Inf(true)
    else h.Num? && h.v >= 0.0 && h.v * h.v == dx.v * dx.v + dy.v * dy.v
  }

  /** `shadowDistance()`: the offset's length plus one pixel, but no more
      than half the smaller side of the bounds. */
  function ShadowDistance(hypot: Float, bounds: Rect): (sd: Float)
    ensures hypot.Num? ==> sd.Num? && sd.v <= hypot.v + 1.0
    ensures sd.Num? ==> sd.v <= Min(bounds.Width(), bounds.Height()) as real / 2.0
  {
    FMin(FAdd(hypot, Num(1.0)), Num(Min(bounds.Width(), bounds.Height()) as real / 2.0))
  }

  /** `buildCornerShader`: centred on the corner, reaching the blur radius
      beyond it, transparent at the centre and the rim and the shadow
      colour in between. */
  function CornerShaderFor(cornerRadius: int, shadow: ShadowValue): (g: Radial)
    ensures |g.colors| == 5 && FadesOnly(g.colors, shadow.color)
    ensures forall i :: 0 <= i < 5 ==> (g.colors[i] == shadow.color <==> i == 2 || i == 3 || WithoutAlpha(shadow.color) == shadow.color)
  {
    var shCol := shadow.color;
    var tra := WithoutAlpha(shCol);
    WithoutAlphaTwice(shCol);
    Radial(FromInt(cornerRadius), FromInt(cornerRadius), FAdd(FromInt(cornerRadius), shadow.radius),
           [tra, tra, shCol, shCol, tra])
  }

  /** `buildEdgeShader`: from the blur radius outside the edge to the
      shadow distance inside it, transparent outside. */
  function EdgeShaderFor(sd: Float, shadow: ShadowValue): (g: Linear)
    ensures |g.colors| == 3 && FadesOnly(g.colors, shadow.color)
    ensures g.colors[0] == WithoutAlpha(shadow.color) && g.colors[1] == g.colors[2] == shadow.color
  {
    var shCol := shadow.color;
    WithoutAlphaTwice(shCol);
    Linear(Num(0.0), FNeg(shadow.radius), Num(0.0), sd, [WithoutAlpha(shCol), shCol, shCol])
  }

  /** Where and how big `draw` paints: the canvas origin (the centre of a
      squeezed side, else its start, moved by the offset), the size with
      negative sides clamped to 0, the bounded corner radius and the
      shadow distance. */
  datatype Frame = Frame(originX: Float, originY: Float, width: int, height: int, cornerRadius: int, shadowDistance: Float)

  function FrameFor(bounds: Rect, cornerRadius: int, shadow: ShadowValue, hypot: Float): (f: Frame)
    ensures f.width >= 0 && f.height >= 0
    ensures f.width == bounds.Width() || (bounds.Width() < 0 && f.width == 0)
    ensures f.height == bounds.Height() || (bounds.Height() < 0 && f.height == 0)
  {
    var w, h := bounds.Width(), bounds.Height();
    Frame(FAdd(FromInt(if w < 0 then bounds.CenterX() else bounds.left), shadow.dx),
          FAdd(FromInt(if h < 0 then bounds.CenterY() else bounds.top), shadow.dy),
          if w < 0 then 0 else w, if h < 0 then 0 else h,
          BoundedCornerRadius(bounds, cornerRadius), ShadowDistance(hypot, bounds))
  }

  /** A squeezed drawable is drawn from the middle of its inverted bounds,
      so the shadow stays between the two edges. */
  lemma SqueezedOrigin(bounds: Rect, cornerRadius: int, shadow: ShadowValue, hypot: Float)
    requires bounds.Width() < 0 && shadow.dx == Num(0.0)
    ensures var f := FrameFor(bounds, cornerRadius, shadow, hypot);
            f.originX.Num? && bounds.right as real <= f.originX.v <= bounds.left as real
  {
    var c := bounds.CenterX();
    assert bounds.right <= c <= bounds.left;
  }

  class RectShadow {
    var state: ShadowState
    var bounds: Rect
    var cornerShader: Option<Radial>
    var edgeShader: Option<Linear>
    const radialColors: array<Int>
    const linearColors: array<Int>

    predicate Valid()
    {
      radialColors.Length == 5 && linearColors.Length == 3 && radialColors != linearColors
    }

    /** `RectShadow(ShadowState)`: no shader yet, empty bounds. */
    constructor (state: ShadowState)
      ensures Valid() && this.state == state && bounds == Rect(0, 0, 0, 0)
      ensures cornerShader == None && edgeShader == None
      ensures fresh(radialColors) && fresh(linearColors)
    {
      this.state := state;
      bounds := Rect(0, 0, 0, 0);
      cornerShader, edgeShader := None, None;
      radialColors := new Int[5](_ => 0);
      linearColors := new Int[3](_ => 0);
    }

    /** `new RectShadow(cornerRadius, dx, dy, radius, color)`: the state
        builds its spec with the checking constructor; the corner radius is
        stored as given. */
    static method New(cornerRadius: Int, dx: Float, dy: Float, radius: Float, color: Int)
      returns (r: Result<RectShadow>)
      ensures r.Ok? <==> CheckShadow(dx, dy, radius).Pass?
      ensures r.Err? ==> Fail(r.error) == CheckShadow(dx, dy, radius)
      ensures r.Ok? ==> fresh(r.value) && fresh(r.value.state) && fresh(r.value.state.shadow) && r.value.Valid() &&
                        r.value.state.cornerRadius == cornerRadius && !r.value.state.inner &&
                        r.value.state.shadow.Value() == ShadowValue(dx, dy, radius, color)
    {
      var spec := ShadowSpec.New(dx, dy, radius, color);
      if spec.Err? {
        return Err(spec.error);
      }
      var state := new ShadowState(cornerRadius, spec.value, false);
      var s := new RectShadow(state);
      r := Ok(s);
    }

    /** `i(index)`: 0 is the corner radius, 1 the shadow colour. */
    function IntProperty(index: int): Int
      requires index == 0 || index == 1
      reads this, state, state.shadow
    {
      if index == 0 then state.cornerRadius else state.shadow.color
    }

    /** `f(index)`: 1 is dx, 2 dy, 3 the blur radius. */
    function FloatProperty(index: int): Float
      requires 1 <= index <= 3
      reads this, state, state.shadow
    {
      if index == 1 then state.shadow.dx else if index == 2 then state.shadow.dy else state.shadow.radius
    }

    /** `i(index, value)`: an unchanged value does nothing. A new corner
        radius is checked first and clears the corner shader only; a new
        colour clears both shaders. */
    method I(index: int, value: Int) returns (r: Outcome)
      requires index == 0 || index == 1
      modifies this, state, state.shadow
      ensures state == old(state) && bounds == old(bounds)
      ensures r.Fail? <==> index == 0 && value != old(state.cornerRadius) && value < 0
      ensures r.Fail? ==> r.error == MustBeNonNegative("cornerRadius")
      ensures r.Pass? ==> IntProperty(index) == value
      ensures r.Fail? || value == old(IntProperty(index)) ==>
                state.cornerRadius == old(state.cornerRadius) && state.shadow.Value() == old(state.shadow.Value()) &&
                cornerShader == old(cornerShader) && edgeShader == old(edgeShader)
      ensures r.Pass? && value != old(IntProperty(index)) ==>
                cornerShader == None &&
                edgeShader == (if index == 0 then old(edgeShader) else None) &&
                (index == 0 ==> state.shadow.Value() == old(state.shadow.Value())) &&
                (index == 1 ==> state.cornerRadius == old(state.cornerRadius) &&
                                state.shadow.Value() == old(state.shadow.Value()).(color := value))
    {
      if IntProperty(index) != value {
        if index == 0 {
          var checked := RequireNonNegativeI(value, "cornerRadius");
          if checked.Err? {
            return Fail(checked.error);
          }
          state.cornerRadius := checked.value;
        } else {
          state.shadow.color := value;
          edgeShader := None;
        }
        cornerShader := None;
      }
      r := Pass;
    }

    /** `shadow(spec)`: copies the spec; both shaders are cleared exactly
        when some field changed. */
    method SetShadow(spec: ShadowSpec)
      modifies this, state.shadow
      ensures state == old(state) && bounds == old(bounds) && state.cornerRadius == old(state.cornerRadius)
      ensures state.shadow.Value() == old(spec.Value())
      ensures var changed := old(state.shadow.Value()) != old(spec.Value());
              cornerShader == (if changed then None else old(cornerShader)) &&
              edgeShader == (if changed then None else old(edgeShader))
    {
      ghost var a, b := state.shadow.Value(), spec.Value();
      var changes := state.shadow.SetFrom(spec);
      MaskFiresChangeHooks(changes, a, b);
      if changes != 0 {
        cornerShader := None;
        edgeShader := None;
      }
    }

    /** `f(index, value)`: a value that differs under float `!=` is stored
        and clears both shaders. */
    method F(index: int, value: Float)
      requires 1 <= index <= 3
      modifies this, state.shadow
      ensures state == old(state) && bounds == old(bounds) && state.cornerRadius == old(state.cornerRadius)
      ensures FloatProperty(index) == value
      ensures !FNe(old(FloatProperty(index)), value) ==>
                state.shadow.Value() == old(state.shadow.Value()) &&
                cornerShader == old(cornerShader) && edgeShader == old(edgeShader)
      ensures FNe(old(FloatProperty(index)), value) ==>
                cornerShader == None && edgeShader == None &&
                state.shadow.Value() == (if index == 1 then old(state.shadow.Value()).(dx := value)
                                         else if index == 2 then old(state.shadow.Value()).(dy := value)
                                         else old(state.shadow.Value()).(radius := value))
    {
      var shadow := state.shadow;
      if FNe(FloatProperty(index), value) {
        if index == 1 {
          shadow.SetDx(value);
        } else if index == 2 {
          shadow.SetDy(value);
        } else {
          shadow.SetRadius(value);
        }
        edgeShader := None;
        cornerShader := None;
      }
    }

    /** `setBounds(bounds)`: a changed shadow distance clears both shaders;
        a changed bounded corner radius clears the corner shader. Shadow
        distances are compared with float `!=`. */
    method SetBounds(b: Rect, hypot: Float)
      requires IsHypot(hypot, state.shadow.dx, state.shadow.dy)
      modifies this
      ensures state == old(state) && bounds == b
      ensures var sdInvalid := FNe(ShadowDistance(hypot, old(bounds)), ShadowDistance(hypot, b));
              var cornersChanged := BoundedCornerRadius(old(bounds), state.cornerRadius) != BoundedCornerRadius(b, state.cornerRadius);
              edgeShader == (if sdInvalid then None else old(edgeShader)) &&
              cornerShader == (if sdInvalid || cornersChanged then None else old(cornerShader))
    {
      var corners := BoundedCornerRadius(bounds, state.cornerRadius);
      var sd := ShadowDistance(hypot, bounds);
      bounds := b;
      var sdInvalid := FNe(sd, ShadowDistance(hypot, bounds));
      if sdInvalid {
        edgeShader := None;
      }
      if sdInvalid || corners != BoundedCornerRadius(bounds, state.cornerRadius) {
        cornerShader := None;
      }
    }

    /** `buildCornerShader`, filling `radialColors`. */
    method BuildCornerShader(cornerRadius: int)
      requires Valid()
      modifies this, radialColors
      ensures state == old(state) && bounds == old(bounds) && edgeShader == old(edgeShader)
      ensures cornerShader == Some(CornerShaderFor(cornerRadius, state.shadow.Value()))
      ensures radialColors[..] == CornerShaderFor(cornerRadius, state.shadow.Value()).colors
    {
      var shCol := state.shadow.color;
      radialColors[0] := WithoutAlpha(shCol);
      radialColors[1] := radialColors[0];
      radialColors[4] := radialColors[0];
      radialColors[2] := shCol;
      radialColors[3] := shCol;
      assert radialColors[..] == [WithoutAlpha(shCol), WithoutAlpha(shCol), shCol, shCol, WithoutAlpha(shCol)];
      var gRad := FAdd(FromInt(cornerRadius), state.shadow.radius);
      cornerShader := Some(Radial(FromInt(cornerRadius), FromInt(cornerRadius), gRad, radialColors[..]));
    }

    /** `buildEdgeShader`, filling `linearColors`. */
    method BuildEdgeShader(sd: Float)
      requires Valid()
      modifies this, linearColors
      ensures state == old(state) && bounds == old(bounds) && cornerShader == old(cornerShader)
      ensures edgeShader == Some(EdgeShaderFor(sd, state.shadow.Value()))
      ensures linearColors[..] == EdgeShaderFor(sd, state.shadow.Value()).colors
    {
      var shCol := state.shadow.color;
      linearColors[0] := WithoutAlpha(shCol);
      linearColors[1] := shCol;
      linearColors[2] := shCol;
      assert linearColors[..] == [WithoutAlpha(shCol), shCol, shCol];
      var shRad := state.shadow.radius;
      edgeShader := Some(Linear(Num(0.0), FNeg(shRad), Num(0.0), sd, linearColors[..]));
    }

    /** `draw(canvas)`: nothing while the shadow colour is transparent.
        Otherwise it draws the frame `FrameFor` gives, building the missing
        shaders (for the bounded corner radius and the shadow distance) and
        keeping the present ones; both are present afterwards. */
    method Draw(hypot: Float) returns (frame: Option<Frame>)
      requires Valid() && IsHypot(hypot, state.shadow.dx, state.shadow.dy)
      modifies this, radialColors, linearColors
      ensures state == old(state) && bounds == old(bounds)
      ensures frame.None? <==> Alpha(state.shadow.color) == 0
      ensures frame.None? ==> cornerShader == old(cornerShader) && edgeShader == old(edgeShader)
      ensures frame.Some? ==>
        var f := FrameFor(bounds, state.cornerRadius, state.shadow.Value(), hypot);
        frame.value == f &&
        cornerShader == (if old(cornerShader).Some? then old(cornerShader)
                         else Some(CornerShaderFor(f.cornerRadius, state.shadow.Value()))) &&
        edgeShader == (if old(edgeShader).Some? then old(edgeShader)
                       else Some(EdgeShaderFor(f.shadowDistance, state.shadow.Value())))
    {
      if Alpha(state.shadow.color) == 0 {
        return None;
      }
      var width, height := bounds.Width(), bounds.Height();
      var originX := FAdd(FromInt(if width < 0 then bounds.CenterX() else bounds.left), state.shadow.dx);
      var originY := FAdd(FromInt(if height < 0 then bounds.CenterY() else bounds.top), state.shadow.dy);
      if width < 0 {
        width := 0;
      }
      if height < 0 {
        height := 0;
      }
      var shadowDistance := ShadowDistance(hypot, bounds);
      var cornerRadius := BoundedCornerRadius(bounds, state.cornerRadius);
      if cornerShader.None? {
        BuildCornerShader(cornerRadius);
      }
      if edgeShader.None? {
        BuildEdgeShader(shadowDistance);
      }
      frame := Some(Frame(originX, originY, width, height, cornerRadius, shadowDistance));
    }

    /** `mutate()`: a new state built from the current values with the
        checking `ShadowSpec` constructor, so it fails (and changes
        nothing) when a setter stored a value that constructor rejects. */
    method Mutate() returns (r: Outcome)
      modifies this
      ensures var v := old(state.shadow.Value());
              r.Pass? <==> CheckShadow(v.dx, v.dy, v.radius).Pass?
      ensures r.Fail? ==> state == old(state)
      ensures r.Pass? ==> fresh(state) && fresh(state.shadow) && !state.inner &&
                          state.cornerRadius == old(state.cornerRadius) && state.shadow.Value() == old(state.shadow.Value())
      ensures bounds == old(bounds) && cornerShader == old(cornerShader) && edgeShader == old(edgeShader)
    {
      var shadow := state.shadow;
      var spec := ShadowSpec.New(shadow.dx, shadow.dy, shadow.radius, shadow.color);
      if spec.Err? {
        return Fail(spec.error);
      }
      state := new ShadowState(state.cornerRadius, spec.value, false);
      r := Pass;
    }
  }

  /** A drawable made from a shared constant state. */
  datatype ShadowDrawable = Inner(inner: InnerShadows.RectInnerShadow) | Outer(outer: RectShadow)

  /** `ShadowState.newDrawable()`: an inner shadow exactly when the state
      says so, sharing that state. */
  method NewDrawable(state: ShadowState) returns (d: ShadowDrawable)
    ensures d.Inner? <==> state.inner
    ensures d.Inner? ==> fresh(d.inner) && d.inner.Valid() && d.inner.state == state &&
                         InnerShadows.Stale(d.inner.Caches()) == {InnerShadows.CornerShader, InnerShadows.CornerPaths, InnerShadows.EdgeShaders}
    ensures d.Outer? ==> fresh(d.outer) && d.outer.Valid() && d.outer.state == state &&
                         d.outer.cornerShader.None? && d.outer.edgeShader.None?
  {
    if state.inner {
      var s := new InnerShadows.RectInnerShadow(state);
      d := Inner(s);
    } else {
      var s := new RectShadow(state);
      d := Outer(s);
    }
  }
}
