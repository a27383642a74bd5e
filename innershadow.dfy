/** `RectInnerShadow`, a shadow cast inside a rounded rectangle, together
    with the `Shadow` base class whose setters it inherits. The drawable
    keeps three lazily built artifacts: a corner shader, four corner paths
    (marked stale by `arcBounds.left == Integer.MIN_VALUE`) and four edge
    shaders (marked stale by slot 0 alone). Setters clear what a change
    invalidates; `draw` rebuilds only what is stale. */
module InnerShadows {
  import opened Java
  import opened Numbers
  import opened Graphics
  import opened Specs
  import opened Shadows

  /** The `left` of `arcBounds` that marks the corner paths as stale. */
  const PathsStale: real := MinInt as real

  /** The cached artifacts as values. */
  datatype Cached = Cached(cornerShader: Option<Radial>, arc: Box, edges: seq<Option<Linear>>)

  datatype Part = CornerShader | CornerPaths | EdgeShaders

  /** The artifacts `draw` will rebuild. */
  function Stale(c: Cached): set<Part>
  {
    (if c.cornerShader.None? then {CornerShader} else {}) +
    (if c.arc.left == PathsStale then {CornerPaths} else {}) +
    (if |c.edges| > 0 && c.edges[0].None? then {EdgeShaders} else {})
  }

  /** What each overridden hook writes (`radiusInvalidated`,
      `shadowOffsetInvalidated`, `shadowRadiusInvalidated`,
      `shadowColorInvalidated`). */
  function Hooked(c: Cached, h: Hook): Cached
    requires |c.edges| == 4
  {
    match h
    case RadiusInvalidated => c.(cornerShader := None, arc := c.arc.(left := PathsStale), edges := c.edges[0 := None])
    case ShadowOffsetInvalidated => c.(arc := c.arc.(left := PathsStale))
    case ShadowRadiusInvalidated => c.(cornerShader := None, arc := c.arc.(left := PathsStale), edges := c.edges[0 := None])
    case ShadowColorInvalidated => c.(cornerShader := None, edges := c.edges[0 := None])
  }

  /** What each hook is meant to invalidate: a new corner radius or blur
      radius changes everything, a new offset only moves the paths, a new
      colour only recolours the shaders. */
  function Clears(h: Hook): set<Part>
  {
    match h
    case RadiusInvalidated => {CornerShader, CornerPaths, EdgeShaders}
    case ShadowOffsetInvalidated => {CornerPaths}
    case ShadowRadiusInvalidated => {CornerShader, CornerPaths, EdgeShaders}
    case ShadowColorInvalidated => {CornerShader, EdgeShaders}
  }

  /** Each hook marks exactly its parts stale and keeps every other
      artifact as it was. */
  lemma HookStaleness(c: Cached, h: Hook)
    requires |c.edges| == 4
    ensures Stale(Hooked(c, h)) == Stale(c) + Clears(h)
    ensures CornerShader !in Clears(h) ==> Hooked(c, h).cornerShader == c.cornerShader
    ensures CornerPaths !in Clears(h) ==> Hooked(c, h).arc == c.arc
    ensures EdgeShaders !in Clears(h) ==> Hooked(c, h).edges == c.edges
    ensures Hooked(c, h).edges[1..] == c.edges[1..]
  {
    var d := Hooked(c, h);
    assert d.edges[1..] == c.edges[1..];
    match h
    case RadiusInvalidated => assert Stale(d) == Stale(c) + {CornerShader, CornerPaths, EdgeShaders};
    case ShadowOffsetInvalidated => assert Stale(d) == Stale(c) + {CornerPaths};
    case ShadowRadiusInvalidated => assert Stale(d) == Stale(c) + {CornerShader, CornerPaths, EdgeShaders};
    case ShadowColorInvalidated => assert Stale(d) == Stale(c) + {CornerShader, EdgeShaders};
  }

  /** The hooks applied in order. */
  function HookAll(c: Cached, hooks: seq<Hook>): (d: Cached)
    requires |c.edges| == 4
    ensures |d.edges| == 4
  {
    if hooks == [] then c else Hooked(HookAll(c, hooks[..|hooks| - 1]), hooks[|hooks| - 1])
  }

  /** A run of hooks marks stale the union of what each clears. */
  lemma {:induction false} HookAllStaleness(c: Cached, hooks: seq<Hook>)
    requires |c.edges| == 4
    ensures forall p :: p in Stale(HookAll(c, hooks)) <==> p in Stale(c) || exists h :: h in hooks && p in Clears(h)
  {
    if hooks != [] {
      var init, last := hooks[..|hooks| - 1], hooks[|hooks| - 1];
      HookAllStaleness(c, init);
      HookStaleness(HookAll(c, init), last);
      assert hooks == init + [last];
      forall p
        ensures p in Stale(HookAll(c, hooks)) <==> p in Stale(c) || exists h :: h in hooks && p in Clears(h)
      {
        if p in Clears(last) {
          assert last in hooks;
        }
        if exists h :: h in hooks && p in Clears(h) {
          var h :| h in hooks && p in Clears(h);
          assert h in init || h == last;
        }
      }
    }
  }

  // ---------------------------------------------------------------------------
  // the artifacts draw builds

  /** `buildCornerShader(cornerRad)`. A corner larger than the blur gets a
      three-stop gradient centred on the corner, transparent twice then the
      colour; otherwise a two-stop gradient centred on the blur radius. */
  function CornerShaderFor(cornerRad: int, shadow: ShadowValue): (g: Radial)
    ensures |g.colors| == (if FLess(shadow.radius, FromInt(cornerRad)) then 3 else 2)
    ensures FadesOnly(g.colors, shadow.color)
    ensures g.colors[0] == WithoutAlpha(shadow.color) && g.colors[|g.colors| - 1] == shadow.color
  {
    var shCol, shRad := shadow.color, shadow.radius;
    WithoutAlphaTwice(shCol);
    if FLess(shRad, FromInt(cornerRad)) then
      Radial(FromInt(cornerRad), FromInt(cornerRad), FAdd(FromInt(cornerRad), shRad),
             [WithoutAlpha(shCol), WithoutAlpha(shCol), shCol])
    else
      Radial(shRad, shRad, FAdd(shRad, shRad), [WithoutAlpha(shCol), shCol])
  }

  /** `buildEdgeShaders(d)`: left, top, right, bottom. The near edges fade
      from the colour to transparent across `[-rad, rad]`, the far edges
      from transparent to the colour across `[d - rad, d + rad]`. */
  function EdgeShadersFor(d: int, shadow: ShadowValue): (e: seq<Linear>)
    ensures |e| == 4
    ensures forall k :: 0 <= k < 4 ==> FadesOnly(e[k].colors, shadow.color)
  {
    var rad, col := shadow.radius, shadow.color;
    var tra := WithoutAlpha(col);
    WithoutAlphaTwice(col);
    var zero, dd := Num(0.0), FromInt(d);
    [Linear(FNeg(rad), zero, rad, zero, [col, tra]),
     Linear(zero, FNeg(rad), zero, rad, [col, tra]),
     Linear(FSub(dd, rad), zero, FAdd(dd, rad), zero, [tra, col]),
     Linear(zero, FSub(dd, rad), zero, FAdd(dd, rad), [tra, col])]
  }

  function Reverse(cs: seq<Int>): seq<Int>
  {
    if cs == [] then [] else Reverse(cs[1..]) + [cs[0]]
  }

  /** The far edges mirror the near ones: the right edge is the left one
      moved right by `d`, the bottom edge the top one moved down by `d`,
      each with its colours in reverse order. */
  lemma EdgeShadersMirror(d: int, shadow: ShadowValue)
    ensures var e := EdgeShadersFor(d, shadow);
            e[2].colors == Reverse(e[0].colors) && e[3].colors == Reverse(e[1].colors) &&
            e[2].x0 == FAdd(e[0].x0, FromInt(d)) && e[2].x1 == FAdd(e[0].x1, FromInt(d)) &&
            e[2].y0 == e[0].y0 && e[2].y1 == e[0].y1 &&
            e[3].y0 == FAdd(e[1].y0, FromInt(d)) && e[3].y1 == FAdd(e[1].y1, FromInt(d)) &&
            e[3].x0 == e[1].x0 && e[3].x1 == e[1].x1
  {
    var e := EdgeShadersFor(d, shadow);
    var rad, dd := shadow.radius, FromInt(d);
    var col, tra := shadow.color, WithoutAlpha(shadow.color);
    AddComm(FNeg(rad), dd);
    AddComm(rad, dd);
    assert Reverse([col, tra]) == [tra, col] by {
      assert [col, tra][1..] == [tra];
      assert Reverse([tra]) == [tra] by { assert [tra][1..] == []; }
    }
  }

  /** Float addition commutes (rounding is not modelled). */
  lemma AddComm(a: Float, b: Float)
    ensures FAdd(a, b) == FAdd(b, a)
  {
  }

  /** Where `buildCornerPaths` leaves `arcBounds`: on the shape's top-left
      corner, one corner diameter wide, with the shadow offset undone. */
  function ArcBoxFor(cornerD: int, shadow: ShadowValue): Box
  {
    var dxInt: int, dyInt: int := Round(shadow.dx), Round(shadow.dy);
    Box(-dxInt as real, -dyInt as real, (-dxInt + cornerD) as real, (-dyInt + cornerD) as real)
  }

  /** The size the shadow's corner takes: `r = max(cornerRadius,
      ceil(radius))`; `d = 2r` is the side of a corner tile, an `int`
      product that wraps around once `r` exceeds `2^30`. */
  function CornerTile(cornerRadius: Int, radius: Float): (d: Int)
    ensures MinInt <= 2 * MaxCeil(cornerRadius, radius) <= MaxInt ==>
              d >= 2 * cornerRadius && d >= 2 * Ceil(radius) &&
              (d == 2 * cornerRadius || d == 2 * Ceil(radius))
    ensures 2 * MaxCeil(cornerRadius, radius) > MaxInt ==>
              d == 2 * MaxCeil(cornerRadius, radius) - TwoTo32 && d < 0
    ensures 2 * MaxCeil(cornerRadius, radius) < MinInt ==>
              d == 2 * MaxCeil(cornerRadius, radius) + TwoTo32 && d >= 0
  {
    Wrap32(2 * MaxCeil(cornerRadius, radius))
  }

  /** A blur of `2^30` with a smaller corner makes `d` wrap to
      `Integer.MIN_VALUE`. */
  lemma CornerTileWrapsExample(cornerRadius: Int)
    requires cornerRadius <= 0x4000_0000
    ensures CornerTile(cornerRadius, Num(0x4000_0000 as real)) == MinInt
  {
    assert Ceil(Num(0x4000_0000 as real)) == 0x4000_0000;
  }

  // ---------------------------------------------------------------------------
  // the drawable

  class RectInnerShadow {
    var state: ShadowState
    var bounds: Rect
    var cornerShader: Option<Radial>
    const arcBounds: RectF
    const edgeShaders: array<Option<Linear>>
    const radialColors: array<Int>

    /** Four edge slots, three radial colours, and slot 0 standing for all
        four edges: the slots are built together and only slot 0 is ever
        cleared. */
    predicate Valid()
      reads edgeShaders
    {
      edgeShaders.Length == 4 && radialColors.Length == 3 &&
      (edgeShaders[0].Some? ==> edgeShaders[1].Some? && edgeShaders[2].Some? && edgeShaders[3].Some?)
    }

    function Caches(): (c: Cached)
      reads this, arcBounds, edgeShaders
      ensures |c.edges| == edgeShaders.Length
    {
      Cached(cornerShader, arcBounds.AsBox(), edgeShaders[..])
    }

    /** `RectInnerShadow(ShadowState)`: every artifact starts stale, the
        bounds empty. */
    constructor (state: ShadowState)
      ensures Valid() && this.state == state && bounds == Rect(0, 0, 0, 0)
      ensures Stale(Caches()) == {CornerShader, CornerPaths, EdgeShaders}
      ensures fresh(arcBounds) && fresh(edgeShaders) && fresh(radialColors)
    {
      this.state := state;
      bounds := Rect(0, 0, 0, 0);
      cornerShader := None;
      arcBounds := new RectF(MinInt as real, 0.0, 0.0, 0.0);
      edgeShaders := new Option<Linear>[4](_ => None);
      radialColors := new Int[3](_ => 0);
    }

    /** `new RectInnerShadow(cornerRadius, dx, dy, radius, color)`: the
        shadow values are checked like `new ShadowSpec(...)`; the corner
        radius is stored as given. */
    static method New(cornerRadius: Int, dx: Float, dy: Float, radius: Float, color: Int)
      returns (r: Result<RectInnerShadow>)
      ensures r.Ok? <==> CheckShadow(dx, dy, radius).Pass?
      ensures r.Err? ==> Fail(r.error) == CheckShadow(dx, dy, radius)
      ensures r.Ok? ==> fresh(r.value) && fresh(r.value.state) && fresh(r.value.state.shadow) && r.value.Valid() &&
                        r.value.state.cornerRadius == cornerRadius && r.value.state.inner &&
                        r.value.state.shadow.Value() == ShadowValue(dx, dy, radius, color)
    {
      var spec := ShadowSpec.New(dx, dy, radius, color);
      if spec.Err? {
        return Err(spec.error);
      }
      var state := new ShadowState(cornerRadius, spec.value, true);
      var s := new RectInnerShadow(state);
      r := Ok(s);
    }

    // ---- properties (`Shadow.i`, `Shadow.f`)

    /** `i(index)`: 0 is the corner radius, 1 the shadow colour. */
    function IntProperty(index: int): Int
      requires index == 0 || index == 1
      reads this, state, state.shadow
    {
      if index == 0 then state.cornerRadius else state.shadow.color
    }

    /** `f(index)`: 1 is dx, 2 dy, 3 the blur radius. */
    function FloatProperty(index: int): Float
      requires 1 <= index <= 3
      reads this, state, state.shadow
    {
      if index == 1 then state.shadow.dx else if index == 2 then state.shadow.dy else state.shadow.radius
    }

    /** The invalidation hooks, dispatched on which one `Shadow` calls. */
    method Invalidate(h: Hook)
      requires Valid()
      modifies this, arcBounds, edgeShaders
      ensures Valid()
      ensures Caches() == Hooked(old(Caches()), h)
      ensures state == old(state) && bounds == old(bounds)
    {
      match h
      case RadiusInvalidated =>
        cornerShader := None;
        arcBounds.left := MinInt as real;
        edgeShaders[0] := None;
      case ShadowOffsetInvalidated =>
        arcBounds.left := MinInt as real;
      case ShadowRadiusInvalidated =>
        cornerShader := None;
        arcBounds.left := MinInt as real;
        edgeShaders[0] := None;
      case ShadowColorInvalidated =>
        cornerShader := None;
        edgeShaders[0] := None;
    }

    /** `i(index, value)`: an unchanged value does nothing. A new corner
        radius is checked before anything is written and fires
        `radiusInvalidated`; a new colour fires `shadowColorInvalidated`.
        Afterwards the property reads back the value. */
    method I(index: int, value: Int) returns (r: Outcome)
      requires Valid() && (index == 0 || index == 1)
      modifies this, arcBounds, edgeShaders, state, state.shadow
      ensures Valid() && state == old(state) && bounds == old(bounds)
      ensures r.Fail? <==> index == 0 && value != old(state.cornerRadius) && value < 0
      ensures r.Fail? ==> r.error == MustBeNonNegative("cornerRadius")
      ensures r.Pass? ==> IntProperty(index) == value
      ensures r.Fail? || value == old(IntProperty(index)) ==>
                state.cornerRadius == old(state.cornerRadius) && state.shadow.Value() == old(state.shadow.Value()) &&
                Caches() == old(Caches())
      ensures r.Pass? && value != old(IntProperty(index)) ==>
                Caches() == Hooked(old(Caches()), IntHook(index)) &&
                (index == 0 ==> state.shadow.Value() == old(state.shadow.Value())) &&
                (index == 1 ==> state.cornerRadius == old(state.cornerRadius) &&
                                state.shadow.Value() == old(state.shadow.Value()).(color := value))
    {
      if IntProperty(index) != value {
        if index == 0 {
          var checked := RequireNonNegativeI(value, "cornerRadius");
          if checked.Err? {
            return Fail(checked.error);
          }
          state.cornerRadius := checked.value;
        } else {
          state.shadow.color := value;
        }
        Invalidate(IntHook(index));
      }
      r := Pass;
    }

    /** `f(index, value)`: a value that differs under float `!=` (so NaN
        always counts as a change) is stored and fires the offset hook for
        dx and dy, the radius hook for the blur radius. Afterwards the
        property reads back the value. */
    method F(index: int, value: Float)
      requires Valid() && 1 <= index <= 3
      modifies this, arcBounds, edgeShaders, state.shadow
      ensures Valid() && state == old(state) && bounds == old(bounds)
      ensures state.cornerRadius == old(state.cornerRadius)
      ensures FloatProperty(index) == value
      ensures !FNe(old(FloatProperty(index)), value) ==>
                state.shadow.Value() == old(state.shadow.Value()) && Caches() == old(Caches())
      ensures FNe(old(FloatProperty(index)), value) ==>
                Caches() == Hooked(old(Caches()), FloatHook(index)) &&
                state.shadow.Value() == (if index == 1 then old(state.shadow.Value()).(dx := value)
                                         else if index == 2 then old(state.shadow.Value()).(dy := value)
                                         else old(state.shadow.Value()).(radius := value))
    {
      var shadow := state.shadow;
      if FNe(FloatProperty(index), value) {
        if index == 1 {
          shadow.SetDx(value);
        } else if index == 2 {
          shadow.SetDy(value);
        } else {
          shadow.SetRadius(value);
        }
        Invalidate(FloatHook(index));
      }
    }

    /** `shadow(spec)`: copies the spec and fires, in order, the offset,
        radius and colour hooks for the fields `setFrom` reports changed;
        nothing when none changed. */
    method SetShadow(spec: ShadowSpec)
      requires Valid()
      modifies this, arcBounds, edgeShaders, state.shadow
      ensures Valid() && state == old(state) && bounds == old(bounds)
      ensures state.cornerRadius == old(state.cornerRadius)
      ensures state.shadow.Value() == old(spec.Value())
      ensures Caches() == HookAll(old(Caches()), ChangeHooks(old(state.shadow.Value()), old(spec.Value())))
    {
      ghost var c0 := Caches();
      ghost var a, b := state.shadow.Value(), spec.Value();
      var changes := state.shadow.SetFrom(spec);
      MaskFiresChangeHooks(changes, a, b);
      if changes == 0 {
        return;
      }
      FireHooks(changes);
    }

    /** The tail of `shadow(spec)`: fires the hook of each group of bits
        set in `changes`, in order. */
    method FireHooks(changes: bv32)
      requires Valid()
      modifies this, arcBounds, edgeShaders
      ensures Valid() && state == old(state) && bounds == old(bounds)
      ensures Caches() == HookAll(old(Caches()), MaskHooks(changes))
    {
      ghost var c0 := Caches();
      ghost var fired: seq<Hook> := [];
      fired := FireIf(changes & 3 != 0, ShadowOffsetInvalidated, c0, fired);
      fired := FireIf(changes & 4 != 0, ShadowRadiusInvalidated, c0, fired);
      fired := FireIf(changes & 8 != 0, ShadowColorInvalidated, c0, fired);
      assert fired == MaskHooks(changes);
    }

    /** Fires hook `h` when `fire` holds, appending it to the hooks fired
        since `c0`. */
    method FireIf(fire: bool, h: Hook, ghost c0: Cached, ghost fired: seq<Hook>) returns (ghost fired': seq<Hook>)
      requires Valid() && |c0.edges| == 4 && Caches() == HookAll(c0, fired)
      modifies this, arcBounds, edgeShaders
      ensures Valid() && state == old(state) && bounds == old(bounds)
      ensures fired' == fired + (if fire then [h] else [])
      ensures Caches() == HookAll(c0, fired')
    {
      fired' := fired;
      if fire {
        Invalidate(h);
        assert (fired + [h])[..|fired|] == fired;
        fired' := fired + [h];
      }
    }

    /** `setBounds(bounds)`: fires `radiusInvalidated` exactly when the new
        bounds change the bounded corner radius. */
    method SetBounds(b: Rect)
      requires Valid()
      modifies this, arcBounds, edgeShaders
      ensures Valid() && state == old(state) && bounds == b
      ensures var before, after := BoundedCornerRadius(old(bounds), state.cornerRadius), BoundedCornerRadius(b, state.cornerRadius);
              Caches() == if before != after then Hooked(old(Caches()), RadiusInvalidated) else old(Caches())
    {
      var corners := BoundedCornerRadius(bounds, state.cornerRadius);
      bounds := b;
      if corners != BoundedCornerRadius(bounds, state.cornerRadius) {
        Invalidate(RadiusInvalidated);
      }
    }

    // ---- drawing

    /** `buildCornerShader(cornerRad)`, filling `radialColors` in the
        three-stop case. */
    method BuildCornerShader(cornerRad: int)
      requires Valid()
      modifies this, radialColors
      ensures Valid() && state == old(state) && bounds == old(bounds)
      ensures cornerShader == Some(CornerShaderFor(cornerRad, state.shadow.Value()))
      ensures FLess(state.shadow.radius, FromInt(cornerRad)) ==>
                radialColors[..] == [WithoutAlpha(state.shadow.color), WithoutAlpha(state.shadow.color), state.shadow.color]
    {
      var shCol, shRad := state.shadow.color, state.shadow.radius;
      if FLess(shRad, FromInt(cornerRad)) {
        radialColors[0] := WithoutAlpha(shCol);
        radialColors[1] := WithoutAlpha(shCol);
        radialColors[2] := shCol;
        assert radialColors[..] == [WithoutAlpha(shCol), WithoutAlpha(shCol), shCol];
        var gRad := FAdd(FromInt(cornerRad), shRad);
        cornerShader := Some(Radial(FromInt(cornerRad), FromInt(cornerRad), gRad, radialColors[..]));
      } else {
        cornerShader := Some(Radial(shRad, shRad, FAdd(shRad, shRad), [WithoutAlpha(shCol), shCol]));
      }
    }

    /** `buildCornerPaths(cornerD, d)` as far as `arcBounds` goes: it is
        set on the top-left corner and moved round the four corners of a
        `d`-sized tile, ending where it started. */
    method BuildCornerPaths(cornerD: int, d: int)
      modifies arcBounds
      ensures arcBounds.AsBox() == ArcBoxFor(cornerD, state.shadow.Value())
    {
      var dxInt: int, dyInt: int := Round(state.shadow.dx), Round(state.shadow.dy);
      arcBounds.Set(-dxInt as real, -dyInt as real, (-dxInt + cornerD) as real, (-dyInt + cornerD) as real);
      arcBounds.Offset(d as real - arcBounds.Width(), 0.0);
      arcBounds.Offset(0.0, d as real - arcBounds.Height());
      arcBounds.Offset(-d as real + arcBounds.Width(), 0.0);
      arcBounds.Offset(0.0, -d as real + arcBounds.Height());
    }

    /** `buildEdgeShaders(d)`: all four slots at once. */
    method BuildEdgeShaders(d: int)
      requires Valid()
      modifies edgeShaders
      ensures Valid()
      ensures forall k :: 0 <= k < 4 ==> edgeShaders[k] == Some(EdgeShadersFor(d, state.shadow.Value())[k])
    {
      var e := EdgeShadersFor(d, state.shadow.Value());
      edgeShaders[0] := Some(e[0]);
      edgeShaders[1] := Some(e[1]);
      edgeShaders[2] := Some(e[2]);
      edgeShaders[3] := Some(e[3]);
    }

    /** The private `draw(canvas, cornerRadius, width, height)` as far as
        the artifacts go: each stale one is rebuilt, for `cornerRadius` and
        the corner tile `d`, and each present one is kept. */
    method DrawTile(cornerRadius: Int)
      requires Valid()
      modifies this, arcBounds, edgeShaders, radialColors
      ensures Valid() && state == old(state) && bounds == old(bounds)
      ensures cornerShader == if old(cornerShader).Some? then old(cornerShader)
                              else Some(CornerShaderFor(cornerRadius, state.shadow.Value()))
      ensures arcBounds.AsBox() == if old(arcBounds.left) != PathsStale then old(arcBounds.AsBox())
                                   else ArcBoxFor(cornerRadius + cornerRadius, state.shadow.Value())
      ensures var e := EdgeShadersFor(CornerTile(cornerRadius, state.shadow.radius), state.shadow.Value());
              edgeShaders[..] == if old(edgeShaders[0]).Some? then old(edgeShaders[..])
                                 else [Some(e[0]), Some(e[1]), Some(e[2]), Some(e[3])]
    {
      var d := CornerTile(cornerRadius, state.shadow.radius);
      EnsureCornerShader(cornerRadius);
      EnsureCornerPaths(cornerRadius + cornerRadius, d);
      EnsureEdgeShaders(d);
    }

    method EnsureCornerShader(cornerRadius: int)
      requires Valid()
      modifies this, radialColors
      ensures Valid() && state == old(state) && bounds == old(bounds)
      ensures cornerShader == if old(cornerShader).Some? then old(cornerShader)
                              else Some(CornerShaderFor(cornerRadius, state.shadow.Value()))
    {
      if cornerShader.None? {
        BuildCornerShader(cornerRadius);
      }
    }

    method EnsureCornerPaths(cornerD: int, d: int)
      modifies arcBounds
      ensures arcBounds.AsBox() == if old(arcBounds.left) != PathsStale then old(arcBounds.AsBox())
                                   else ArcBoxFor(cornerD, state.shadow.Value())
    {
      if arcBounds.left == MinInt as real {
        BuildCornerPaths(cornerD, d);
      }
    }

    method EnsureEdgeShaders(d: int)
      requires Valid()
      modifies edgeShaders
      ensures Valid()
      ensures var e := EdgeShadersFor(d, state.shadow.Value());
              edgeShaders[..] == if old(edgeShaders[0]).Some? then old(edgeShaders[..])
                                 else [Some(e[0]), Some(e[1]), Some(e[2]), Some(e[3])]
    {
      if edgeShaders[0].None? {
        BuildEdgeShaders(d);
        var e := EdgeShadersFor(d, state.shadow.Value());
        assert edgeShaders[..] == [Some(e[0]), Some(e[1]), Some(e[2]), Some(e[3])];
      }
    }

    /** `draw(canvas)`: nothing for a transparent colour or empty bounds.
        Otherwise the tile is drawn for the bounded corner radius, and
        afterwards nothing is stale. */
    method Draw() returns (drawn: bool)
      requires Valid()
      modifies this, arcBounds, edgeShaders, radialColors
      ensures Valid() && state == old(state) && bounds == old(bounds)
      ensures drawn <==> Alpha(state.shadow.color) != 0 && bounds.Width() > 0 && bounds.Height() > 0
      ensures !drawn ==> Caches() == old(Caches())
      ensures drawn ==> Stale(Caches()) == {}
      ensures drawn ==>
        var cr := BoundedCornerRadius(bounds, state.cornerRadius);
        var e := EdgeShadersFor(CornerTile(cr, state.shadow.radius), state.shadow.Value());
        var c0 := old(Caches());
        cornerShader == (if c0.cornerShader.Some? then c0.cornerShader else Some(CornerShaderFor(cr, state.shadow.Value()))) &&
        arcBounds.AsBox() == (if c0.arc.left != PathsStale then c0.arc else ArcBoxFor(cr + cr, state.shadow.Value())) &&
        edgeShaders[..] == (if c0.edges[0].Some? then c0.edges else [Some(e[0]), Some(e[1]), Some(e[2]), Some(e[3])])
    {
      var shadow := state.shadow;
      if Alpha(shadow.color) == 0 || bounds.Width() <= 0 || bounds.Height() <= 0 {
        return false;
      }
      var cornerRadius := BoundedCornerRadius(bounds, state.cornerRadius);
      DrawTile(cornerRadius);
      drawn := true;
    }

    /** `mutate()`: a fresh state holding a fresh copy of the shadow, so
        that changes no longer reach other drawables sharing the old one. */
    method Mutate()
      modifies this
      ensures fresh(state) && fresh(state.shadow)
      ensures state.cornerRadius == old(state.cornerRadius) && state.inner == old(state.inner)
      ensures state.shadow.Value() == old(state.shadow.Value())
      ensures bounds == old(bounds) && cornerShader == old(cornerShader)
    {
      var copy := new ShadowSpec.Copy(state.shadow);
      state := new ShadowState(state.cornerRadius, copy, state.inner);
    }
  }
}
