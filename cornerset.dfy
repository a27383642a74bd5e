/** `CornerSet`: which corners and edges of a rounded rectangle a
    stretchable shadow tile contains. Each variant packs its eight
    corner/edge flags into a byte; from that byte the tile is measured, the
    shadowed shape is laid out inside it, the nine-patch chunk describing
    its stretchable row and column is written, and the drawable is inset. */
module Corners {
  import opened Java
  import opened Numbers
  import opened Graphics
  import opened NinePatchChunk
  import opened Specs

  datatype CornerSet =
    | TopLeft | TopRight | BottomLeft | BottomRight
    | BothLeft | BothTop | BothRight | BothBottom
    | Horizontal | Vertical
    | All
    | BetweenBottomAndTop | BetweenRightAndLeft

  predicate IsBetween(c: CornerSet) { c.BetweenBottomAndTop? || c.BetweenRightAndLeft? }

  /** The constructor arguments of each variant, in the order
      top-left, top, top-right, right, bottom-right, bottom, bottom-left,
      left. */
  function Flags(c: CornerSet): (f: seq<Flag>)
    ensures |f| == 8
  {
    match c
    case TopLeft => [1, 1, 0, 0, 0, 0, 0, 1]
    case TopRight => [0, 1, 1, 1, 0, 0, 0, 0]
    case BottomLeft => [0, 0, 0, 0, 0, 1, 1, 1]
    case BottomRight => [0, 0, 0, 1, 1, 1, 0, 0]
    case BothLeft => [1, 1, 0, 0, 0, 1, 1, 1]
    case BothTop => [1, 1, 1, 1, 0, 0, 0, 1]
    case BothRight => [0, 1, 1, 1, 1, 1, 0, 0]
    case BothBottom => [0, 0, 0, 1, 1, 1, 1, 1]
    case Horizontal => [0, 1, 0, 0, 0, 1, 0, 0]
    case Vertical => [0, 0, 0, 1, 0, 0, 0, 1]
    case All => [1, 1, 1, 1, 1, 1, 1, 1]
    case BetweenBottomAndTop => [1, 1, 1, 0, 1, 1, 1, 0]
    case BetweenRightAndLeft => [1, 0, 1, 1, 1, 0, 1, 1]
  }

  /** A constructor argument: 0 or 1. */
  type Flag = b: bv32 | b <= 1

  /** The enum constructor: flag `k` becomes bit `k`. */
  function Pack(f: seq<Flag>): (p: bv32)
    requires |f| == 8
    ensures p < 256
  {
    var b: seq<bv32> := f;
    b[0] | (b[1] << 1) | (b[2] << 2) | (b[3] << 3) | (b[4] << 4) | (b[5] << 5) | (b[6] << 6) | (b[7] << 7)
  }

  /** `cornersAndEdges`. */
  function CornersAndEdges(c: CornerSet): bv32
  {
    Pack(Flags(c))
  }

  const AnyLeft: bv32 := 1 | (1 << 6) | (1 << 7)
  const AnyRight: bv32 := (1 << 2) | (1 << 3) | (1 << 4)
  const AnyTop: bv32 := 1 | (1 << 1) | (1 << 2)
  const AnyBottom: bv32 := (1 << 4) | (1 << 5) | (1 << 6)

  predicate HasLeft(c: CornerSet) { CornersAndEdges(c) & AnyLeft != 0 }
  predicate HasRight(c: CornerSet) { CornersAndEdges(c) & AnyRight != 0 }
  predicate HasTop(c: CornerSet) { CornersAndEdges(c) & AnyTop != 0 }
  predicate HasBottom(c: CornerSet) { CornersAndEdges(c) & AnyBottom != 0 }

  /** Bit `k` of the packed byte is constructor flag `k`. */
  lemma PackBits(f: seq<Flag>)
    requires |f| == 8
    ensures forall k :: 0 <= k < 8 ==> (Pack(f) >> k) & 1 == f[k]
  {
    var p := Pack(f);
    assert (p >> 0) & 1 == f[0] && (p >> 1) & 1 == f[1] && (p >> 2) & 1 == f[2] && (p >> 3) & 1 == f[3];
    assert (p >> 4) & 1 == f[4] && (p >> 5) & 1 == f[5] && (p >> 6) & 1 == f[6] && (p >> 7) & 1 == f[7];
  }

  /** A side mask is set exactly when one of the side's two corners or its
      edge is present. */
  lemma SideMasks(f: seq<Flag>)
    requires |f| == 8
    ensures Pack(f) & AnyLeft != 0 <==> f[0] == 1 || f[6] == 1 || f[7] == 1
    ensures Pack(f) & AnyRight != 0 <==> f[2] == 1 || f[3] == 1 || f[4] == 1
    ensures Pack(f) & AnyTop != 0 <==> f[0] == 1 || f[1] == 1 || f[2] == 1
    ensures Pack(f) & AnyBottom != 0 <==> f[4] == 1 || f[5] == 1 || f[6] == 1
  {
    var p := Pack(f);
    assert (p >> 0) & 1 == f[0] && (p >> 1) & 1 == f[1] && (p >> 2) & 1 == f[2] && (p >> 3) & 1 == f[3];
    assert (p >> 4) & 1 == f[4] && (p >> 5) & 1 == f[5] && (p >> 6) & 1 == f[6] && (p >> 7) & 1 == f[7];
  }

  // ---------------------------------------------------------------------------
  // measuring

  /** How far the shadow reaches past the shape on the positive side:
      `max(0, ceil(d + r))`. */
  function DPos(d: Float, r: Float): (e: int)
    ensures e >= 0
  {
    var s: int := Ceil(FAdd(d, r));
    if s > 0 then s else 0
  }

  /** How far it reaches on the negative side, as a non-positive number:
      `min(0, ceil(d - r))`. */
  function DNeg(d: Float, r: Float): (e: int)
    ensures e <= 0
  {
    var s: int := Ceil(FSub(d, r));
    if s < 0 then s else 0
  }

  /** `CornerSet.measure`: the start part (padding, corner and shadow
      reach), one stretchable pixel, and the end part. */
  function Measure(cornerRadius: int, d: Float, r: Float, hasStart: bool, hasEnd: bool, start: int, end: int): (m: int)
    ensures cornerRadius >= 0 && start >= 0 && end >= 0 ==> m >= 1
    ensures !hasStart && !hasEnd ==> m == 1
  {
    (if hasStart then start + cornerRadius + DPos(d, r) else 0) + 1 +
    (if hasEnd then -DNeg(d, r) + cornerRadius + end else 0)
  }

  /** Growing the corner radius, or a padding on a side that is present,
      never shrinks the tile. */
  lemma MeasureMonotone(c1: int, c2: int, d: Float, r: Float, hasStart: bool, hasEnd: bool,
                        s1: int, s2: int, e1: int, e2: int)
    requires c1 <= c2 && s1 <= s2 && e1 <= e2
    ensures Measure(c1, d, r, hasStart, hasEnd, s1, e1) <= Measure(c2, d, r, hasStart, hasEnd, s2, e2)
    ensures !hasStart ==> Measure(c1, d, r, hasStart, hasEnd, s1, e1) == Measure(c1, d, r, hasStart, hasEnd, s2, e1)
    ensures !hasEnd ==> Measure(c1, d, r, hasStart, hasEnd, s1, e1) == Measure(c1, d, r, hasStart, hasEnd, s1, e2)
  {
  }

  function MeasureWidth(c: CornerSet, paddings: Rect, corner: int, shadow: ShadowValue): int
  {
    Measure(corner, shadow.dx, shadow.radius, HasLeft(c), HasRight(c), paddings.left, paddings.right)
  }

  function MeasureHeight(c: CornerSet, paddings: Rect, corner: int, shadow: ShadowValue): int
  {
    Measure(corner, shadow.dy, shadow.radius, HasTop(c), HasBottom(c), paddings.top, paddings.bottom)
  }

  /** The full set with the paddings a shadow (2, 3, 20) infers and a
      corner of 20 is 123 by 124 pixels. */
  lemma MeasureAllExample(color: Int)
    ensures var shadow := ShadowValue(Num(2.0), Num(3.0), Num(20.0), color);
            var paddings := ShadowPaddings(shadow.dx, shadow.dy, shadow.radius);
            paddings == Rect(20, 20, 22, 23) &&
            MeasureWidth(All, paddings, 20, shadow) == 123 &&
            MeasureHeight(All, paddings, 20, shadow) == 124
  {
    ShadowPaddingsExample();
    assert Ceil(Num(22.0)) == 22 && Ceil(Num(-18.0)) == -18;
    assert Ceil(Num(23.0)) == 23 && Ceil(Num(-17.0)) == -17;
  }

  // ---------------------------------------------------------------------------
  // layout

  /** Where `layout` puts the shadowed shape inside the tile: placed by
      the paddings of the present sides and, for the `BETWEEN_*` variants,
      turned inside out along their stretchable axis. */
  function ShapeBox(c: CornerSet, paddings: Rect, cornerX: int, cornerY: int, shadow: ShadowValue): Box
  {
    var dxPos, dxNeg := DPos(shadow.dx, shadow.radius), DNeg(shadow.dx, shadow.radius);
    var dyPos, dyNeg := DPos(shadow.dy, shadow.radius), DNeg(shadow.dy, shadow.radius);
    var ox := if HasLeft(c) then paddings.left else -cornerX - dxPos;
    var oy := if HasTop(c) then paddings.top else -cornerY - dyPos;
    var w, h := cornerX + dxPos + 1 - dxNeg + cornerX, cornerY + dyPos + 1 - dyNeg + cornerY;
    InsideOut(c, paddings, Box(ox as real, oy as real, (ox + w) as real, (oy + h) as real), cornerX - dxNeg, cornerY - dyNeg)
  }

  /** The `BETWEEN_*` step of `layout`: along the stretchable axis the
      shape ends at `right` (or `bottom`) and starts the paddings and the
      stretchable pixel past it. */
  function InsideOut(c: CornerSet, paddings: Rect, b: Box, right: int, bottom: int): Box
  {
    if c.BetweenBottomAndTop? then
      b.(bottom := bottom as real, top := bottom as real + (paddings.bottom + 1 + paddings.top) as real)
    else if c.BetweenRightAndLeft? then
      b.(right := right as real, left := right as real + (paddings.right + 1 + paddings.left) as real)
    else
      b
  }

  /** Along an axis the shape is two corners, one stretchable pixel and
      the shadow's reach wide; it starts at the padding of a present side
      and ends at the padding of the opposite present side, and a side
      that is absent pushes it out of the tile by the corner and the
      shadow's reach. The `BETWEEN_*` variants put the stretchable space,
      padded on both sides, between the two half-shapes. */
  lemma ShapeBoxFits(c: CornerSet, paddings: Rect, cornerX: int, cornerY: int, shadow: ShadowValue)
    ensures var b := ShapeBox(c, paddings, cornerX, cornerY, shadow);
      !c.BetweenRightAndLeft? ==>
      b.right - b.left == (2 * cornerX + DPos(shadow.dx, shadow.radius) + 1 - DNeg(shadow.dx, shadow.radius)) as real &&
      (HasLeft(c) ==> b.left == paddings.left as real) &&
      (!HasLeft(c) ==> b.left + (cornerX + DPos(shadow.dx, shadow.radius)) as real == 0.0) &&
      (HasRight(c) ==> b.right + paddings.right as real == MeasureWidth(c, paddings, cornerX, shadow) as real)
    ensures var b := ShapeBox(c, paddings, cornerX, cornerY, shadow);
      !c.BetweenBottomAndTop? ==>
      b.bottom - b.top == (2 * cornerY + DPos(shadow.dy, shadow.radius) + 1 - DNeg(shadow.dy, shadow.radius)) as real &&
      (HasTop(c) ==> b.top == paddings.top as real) &&
      (!HasTop(c) ==> b.top + (cornerY + DPos(shadow.dy, shadow.radius)) as real == 0.0) &&
      (HasBottom(c) ==> b.bottom + paddings.bottom as real == MeasureHeight(c, paddings, cornerY, shadow) as real)
    ensures var b := ShapeBox(c, paddings, cornerX, cornerY, shadow);
      c.BetweenRightAndLeft? ==>
      b.right == (cornerX - DNeg(shadow.dx, shadow.radius)) as real &&
      b.left - b.right == (paddings.right + 1 + paddings.left) as real
    ensures var b := ShapeBox(c, paddings, cornerX, cornerY, shadow);
      c.BetweenBottomAndTop? ==>
      b.bottom == (cornerY - DNeg(shadow.dy, shadow.radius)) as real &&
      b.top - b.bottom == (paddings.bottom + 1 + paddings.top) as real
  {
  }

  /** ShapeBox is the box of the shape placed at `(ox, oy)`, `w` by `h`,
      then turned inside out. */
  lemma ShapeBoxPlaced(c: CornerSet, paddings: Rect, cornerX: int, cornerY: int, s: ShadowValue, ox: int, oy: int, w: int, h: int)
    requires ox == if HasLeft(c) then paddings.left else -cornerX - DPos(s.dx, s.radius)
    requires oy == if HasTop(c) then paddings.top else -cornerY - DPos(s.dy, s.radius)
    requires w == cornerX + DPos(s.dx, s.radius) + 1 - DNeg(s.dx, s.radius) + cornerX
    requires h == cornerY + DPos(s.dy, s.radius) + 1 - DNeg(s.dy, s.radius) + cornerY
    ensures ShapeBox(c, paddings, cornerX, cornerY, s)
         == InsideOut(c, paddings, Box(ox as real, oy as real, (ox + w) as real, (oy + h) as real),
                      cornerX - DNeg(s.dx, s.radius), cornerY - DNeg(s.dy, s.radius))
  {
  }

  /** `CornerSet.layout`: builds the shape at the origin, moves it into
      place and, for the `BETWEEN_*` variants, turns it inside out. */
  method Layout(c: CornerSet, paddings: Rect, cornerX: int, cornerY: int, shadow: ShadowSpec) returns (shape: RectF)
    ensures fresh(shape)
    ensures shape.AsBox() == ShapeBox(c, paddings, cornerX, cornerY, shadow.Value())
  {
    var s := shadow.Value();
    var dxPos, dxNeg := DPos(s.dx, s.radius), DNeg(s.dx, s.radius);
    var dyPos, dyNeg := DPos(s.dy, s.radius), DNeg(s.dy, s.radius);
    var ox: int := if HasLeft(c) then paddings.left else -cornerX - dxPos;
    var oy: int := if HasTop(c) then paddings.top else -cornerY - dyPos;
    var w: int, h: int := cornerX + dxPos + 1 - dxNeg + cornerX, cornerY + dyPos + 1 - dyNeg + cornerY;
    ShapeBoxPlaced(c, paddings, cornerX, cornerY, s, ox, oy, w, h);
    shape := Place(ox, oy, w, h);
    TurnInsideOut(shape, c, paddings, cornerX - dxNeg, cornerY - dyNeg, Box(ox as real, oy as real, (ox + w) as real, (oy + h) as real));
    assert shadow.Value() == s;
  }

  /** A new `w` by `h` rectangle at the origin, offset to `(ox, oy)`. */
  method Place(ox: int, oy: int, w: int, h: int) returns (shape: RectF)
    ensures fresh(shape)
    ensures shape.AsBox() == Box(ox as real, oy as real, (ox + w) as real, (oy + h) as real)
  {
    shape := new RectF(0.0, 0.0, w as real, h as real);
    shape.Offset(ox as real, oy as real);
  }

  /** The `BETWEEN_*` branch of `layout`, on the shape in place. */
  method TurnInsideOut(shape: RectF, c: CornerSet, paddings: Rect, right: int, bottom: int, ghost placed: Box)
    requires shape.AsBox() == placed
    modifies shape
    ensures shape.AsBox() == InsideOut(c, paddings, placed, right, bottom)
  {
    if c.BetweenBottomAndTop? {
      shape.bottom := bottom as real;
      shape.top := shape.bottom + (paddings.bottom + 1 + paddings.top) as real;
    } else if c.BetweenRightAndLeft? {
      shape.right := right as real;
      shape.left := shape.right + (paddings.right + 1 + paddings.left) as real;
    }
  }

  // ---------------------------------------------------------------------------
  // nine-patch chunk

  /** The paddings the chunk declares: those of the present sides, 0 for
      the others. */
  function HeaderPaddings(c: CornerSet, paddings: Rect): Rect
  {
    Rect(if HasLeft(c) then paddings.left else 0, if HasTop(c) then paddings.top else 0,
         if HasRight(c) then paddings.right else 0, if HasBottom(c) then paddings.bottom else 0)
  }

  /** Whether `colorsAt & (1 << j)` is set; Java masks the shift distance
      to five bits. */
  predicate Marked(colorsAt: bv32, j: nat)
  {
    colorsAt & Bit(j % 32) != 0
  }

  /** `1 << k`, as a table (the shift distance stays an index). */
  function Bit(k: nat): bv32
    requires k < 32
  {
    Bits[k]
  }

  const Bits: seq<bv32> :=
    [0x1, 0x2, 0x4, 0x8, 0x10, 0x20, 0x40, 0x80,
     0x100, 0x200, 0x400, 0x800, 0x1000, 0x2000, 0x4000, 0x8000,
     0x1_0000, 0x2_0000, 0x4_0000, 0x8_0000, 0x10_0000, 0x20_0000, 0x40_0000, 0x80_0000,
     0x100_0000, 0x200_0000, 0x400_0000, 0x800_0000, 0x1000_0000, 0x2000_0000, 0x4000_0000, 0x8000_0000]

  /** The region colours: `color` for the marked slots, `NO_COLOR` for
      the others. */
  function SlotColors(n: nat, colorsAt: bv32, color: Int): (r: seq<int>)
    ensures |r| == n
    ensures forall j :: 0 <= j < n ==> r[j] == (if Marked(colorsAt, j) then color else NoColor)
  {
    seq(n, j requires 0 <= j => if Marked(colorsAt, j) then color else NoColor)
  }

  /** Writing the words of a byte string, one word at a time. */
  lemma {:induction false} WordsUpdate(ws: seq<int>, w: nat, v: int)
    requires w < |ws|
    ensures Words(ws[w := v]) == Words(ws)[..4 * w] + Le(v) + Words(ws)[4 * w + 4..]
  {
    var u := ws[w := v];
    if w == 0 {
      assert u == [v] + ws[1..];
      assert u[1..] == ws[1..];
      assert Words(ws)[4..] == Words(ws[1..]);
    } else {
      WordsUpdate(ws[1..], w - 1, v);
      assert u[0] == ws[0] && u[1..] == ws[1..][w - 1 := v];
      var tail := Words(ws[1..]);
      assert Words(ws) == Le(ws[0]) + tail;
      assert Words(u) == Le(ws[0]) + (tail[..4 * (w - 1)] + Le(v) + tail[4 * (w - 1) + 4..]);
      assert Words(ws)[..4 * w] == Le(ws[0]) + tail[..4 * (w - 1)];
      assert Words(ws)[4 * w + 4..] == tail[4 * (w - 1) + 4..];
    }
  }

  /** `putLe` at word `w` after the four header bytes. */
  lemma WordsAfterPut(h: seq<Byte>, ws: seq<int>, w: nat, v: int)
    requires |h| == 4 && w < |ws|
    ensures var s := h + Words(ws);
            s[..4 + 4 * w] + Le(v) + s[4 + 4 * w + 4..] == h + Words(ws[w := v])
  {
    WordsUpdate(ws, w, v);
    var s := h + Words(ws);
    assert s[..4 + 4 * w] == h + Words(ws)[..4 * w];
    assert s[4 + 4 * w + 4..] == Words(ws)[4 * w + 4..];
  }

  /** `putLe(chunk, at, v)` on a chunk laid out as header bytes and
      words, where `at` is the offset `4 + 4w` of word `w`: that word
      becomes `v`. */
  method PutWord(chunk: array<Byte>, ghost h: seq<Byte>, ghost ws: seq<int>, ghost w: nat, at: nat, v: int)
    requires |h| == 4 && w < |ws| && at == 4 + 4 * w && chunk[..] == h + Words(ws)
    modifies chunk
    ensures chunk[..] == h + Words(ws[w := v])
  {
    var _ := PutLe(chunk, at, v);
    WordsAfterPut(h, ws, w, v);
  }

  lemma {:induction false} ZeroWords(n: nat)
    ensures Words(seq(n, _ => 0)) == seq(4 * n, _ => 0)
  {
    if n > 0 {
      ZeroWords(n - 1);
      assert seq(n, _ => 0)[1..] == seq(n - 1, _ => 0);
      assert Le(0) == [0, 0, 0, 0];
      assert seq(4 * n, _ => 0) == [0, 0, 0, 0] + seq(4 * (n - 1), _ => 0);
    }
  }

  /** The words of a chunk whose first `j` colour slots are written. */
  function Partial(hp: Rect, xDiv: int, yDiv: int, colors: seq<int>, j: nat): (ws: seq<int>)
    requires j <= |colors|
    ensures |ws| == 11 + |colors|
  {
    FixedWords(hp, xDiv, yDiv) + colors[..j] + seq(|colors| - j, _ => 0)
  }

  lemma HeaderWritten(c: CornerSet, paddings: Rect, xDiv: int, yDiv: int, colors: seq<int>)
    ensures PaddingWords(c, paddings, |colors|)[7 := xDiv][8 := xDiv + 1][9 := yDiv][10 := yDiv + 1]
            == Partial(HeaderPaddings(c, paddings), xDiv, yDiv, colors, 0)
  {
  }

  lemma SlotWritten(hp: Rect, xDiv: int, yDiv: int, colors: seq<int>, j: nat)
    requires j < |colors|
    ensures Partial(hp, xDiv, yDiv, colors, j)[11 + j := colors[j]] == Partial(hp, xDiv, yDiv, colors, j + 1)
  {
    assert colors[..j + 1] == colors[..j] + [colors[j]];
  }

  /** A zeroed chunk with its four header bytes written. */
  method ZeroChunk(colorCount: nat) returns (chunk: array<Byte>)
    requires colorCount < 256
    ensures fresh(chunk)
    ensures chunk[..] == [1, 2, 2, colorCount] + Words(seq(11 + colorCount, _ => 0))
  {
    chunk := new Byte[32 + 4 * (4 + colorCount)](_ => 0);
    ZeroWords(11 + colorCount);
    chunk[0] := 1;
    chunk[1] := 2;
    chunk[2] := 2;
    chunk[3] := colorCount;
  }

  /** The words of a zeroed chunk once the paddings of the present sides
      are written. */
  function PaddingWords(c: CornerSet, paddings: Rect, colorCount: nat): (ws: seq<int>)
    ensures |ws| == 11 + colorCount
  {
    seq(11 + colorCount, _ => 0)
      [2 := if HasLeft(c) then paddings.left else 0]
      [3 := if HasRight(c) then paddings.right else 0]
      [4 := if HasTop(c) then paddings.top else 0]
      [5 := if HasBottom(c) then paddings.bottom else 0]
  }

  method PutPaddings(chunk: array<Byte>, ghost h: seq<Byte>, c: CornerSet, paddings: Rect, colorCount: nat)
    requires |h| == 4 && chunk[..] == h + Words(seq(11 + colorCount, _ => 0))
    modifies chunk
    ensures chunk[..] == h + Words(PaddingWords(c, paddings, colorCount))
  {
    ghost var cur: seq<int> := seq(11 + colorCount, _ => 0);
    PutWord(chunk, h, cur, 2, 12, if HasLeft(c) then paddings.left else 0);
    cur := cur[2 := if HasLeft(c) then paddings.left else 0];
    PutWord(chunk, h, cur, 3, 16, if HasRight(c) then paddings.right else 0);
    cur := cur[3 := if HasRight(c) then paddings.right else 0];
    PutWord(chunk, h, cur, 4, 20, if HasTop(c) then paddings.top else 0);
    cur := cur[4 := if HasTop(c) then paddings.top else 0];
    PutWord(chunk, h, cur, 5, 24, if HasBottom(c) then paddings.bottom else 0);
  }

  method PutDivs(chunk: array<Byte>, ghost h: seq<Byte>, ghost ws: seq<int>, xDiv: int, yDiv: int)
    requires |h| == 4 && |ws| >= 11 && chunk[..] == h + Words(ws)
    modifies chunk
    ensures chunk[..] == h + Words(ws[7 := xDiv][8 := xDiv + 1][9 := yDiv][10 := yDiv + 1])
  {
    PutWord(chunk, h, ws, 7, 32, xDiv);
    PutWord(chunk, h, ws[7 := xDiv], 8, 36, xDiv + 1);
    PutWord(chunk, h, ws[7 := xDiv][8 := xDiv + 1], 9, 40, yDiv);
    PutWord(chunk, h, ws[7 := xDiv][8 := xDiv + 1][9 := yDiv], 10, 44, yDiv + 1);
  }

  /** The first half of the private `chunk`: a zeroed array of
      48 + 4n bytes with the header bytes, the paddings of the present
      sides and the div pairs `[xDiv, xDiv + 1]` and `[yDiv, yDiv + 1]`;
      the colour slots are still zero. */
  method NewChunk(c: CornerSet, paddings: Rect, xDiv: int, yDiv: int, colorCount: nat, ghost colors: seq<int>)
    returns (chunk: array<Byte>)
    requires colorCount < 256 && |colors| == colorCount
    ensures fresh(chunk)
    ensures chunk[..] == [1, 2, 2, colorCount] + Words(Partial(HeaderPaddings(c, paddings), xDiv, yDiv, colors, 0))
  {
    chunk := ZeroChunk(colorCount);
    ghost var h: seq<Byte> := [1, 2, 2, colorCount];
    PutPaddings(chunk, h, c, paddings, colorCount);
    PutDivs(chunk, h, PaddingWords(c, paddings, colorCount), xDiv, yDiv);
    HeaderWritten(c, paddings, xDiv, yDiv, colors);
  }

  /** The private `chunk`: the header half, then one colour word per
      region slot, `color` where `colorsAt` has the slot's bit and
      `NO_COLOR` elsewhere. */
  method WriteChunk(c: CornerSet, paddings: Rect, xDiv: int, yDiv: int, colorCount: nat, colorsAt: bv32, color: Int)
    returns (chunk: array<Byte>)
    requires colorCount < 256
    ensures fresh(chunk)
    ensures chunk[..] == ChunkBytes(HeaderPaddings(c, paddings), xDiv, yDiv, SlotColors(colorCount, colorsAt, color))
  {
    ghost var colors := SlotColors(colorCount, colorsAt, color);
    ghost var h: seq<Byte> := [1, 2, 2, colorCount];
    ghost var hp := HeaderPaddings(c, paddings);
    chunk := NewChunk(c, paddings, xDiv, yDiv, colorCount, colors);
    var i, j := 44, 0;
    while j < colorCount
      invariant 0 <= j <= colorCount && i == 44 + 4 * j
      invariant chunk[..] == h + Words(Partial(hp, xDiv, yDiv, colors, j))
    {
      i := i + 4;
      var v := if !Marked(colorsAt, j) then NoColor else color;
      PutWord(chunk, h, Partial(hp, xDiv, yDiv, colors, j), 11 + j, i, v);
      SlotWritten(hp, xDiv, yDiv, colors, j);
      j := j + 1;
    }
    assert colors[..j] == colors;
    assert Partial(hp, xDiv, yDiv, colors, j) == FixedWords(hp, xDiv, yDiv) + colors;
  }

  /** The arguments the public `chunk` hands to the private one, per
      variant: the two div positions, the number of regions, which of them
      are filled, and with which colour. */
  datatype Plan = Plan(xDiv: int, yDiv: int, colorCount: nat, colorsAt: bv32, color: Int)

  function ChunkPlan(c: CornerSet, paddings: Rect, cornerX: int, cornerY: int, shadow: ShadowValue,
                     bgColor: Int, fillColor: Int): (p: Plan)
    ensures p.colorCount == 3 || p.colorCount == 4 || p.colorCount == 6 || p.colorCount == 9
    ensures p.color == (if IsBetween(c) then bgColor else fillColor)
  {
    var left := paddings.left + cornerX + DPos(shadow.dx, shadow.radius);
    var top := paddings.top + cornerY + DPos(shadow.dy, shadow.radius);
    match c
    case TopLeft => Plan(left, top, 4, 1 << 3, fillColor)
    case TopRight => Plan(0, top, 4, 1 << 2, fillColor)
    case BottomLeft => Plan(left, 0, 4, 1 << 1, fillColor)
    case BottomRight => Plan(0, 0, 4, 1, fillColor)
    case BothLeft => Plan(left, top, 6, 1 << 3, fillColor)
    case BothTop => Plan(left, top, 6, 1 << 4, fillColor)
    case BothRight => Plan(0, top, 6, 1 << 2, fillColor)
    case BothBottom => Plan(left, 0, 6, 1 << 1, fillColor)
    case Horizontal => Plan(0, top, 3, 1 << 1, fillColor)
    case Vertical => Plan(left, 0, 3, 1 << 1, fillColor)
    case All => Plan(left, top, 9, 1 << 4, fillColor)
    case BetweenBottomAndTop =>
      Plan(left, -DNeg(shadow.dy, shadow.radius) + cornerY + paddings.bottom, 9,
           (1 << 3) | (1 << 4) | (1 << 5), bgColor)
    case BetweenRightAndLeft =>
      Plan(-DNeg(shadow.dx, shadow.radius) + cornerX + paddings.right, top, 9,
           (1 << 1) | (1 << 4) | (1 << 7), bgColor)
  }

  /** The public `chunk`. */
  method Chunk(c: CornerSet, paddings: Rect, cornerX: int, cornerY: int, shadow: ShadowSpec,
               bgColor: Int, fillColor: Int) returns (chunk: array<Byte>)
    ensures fresh(chunk)
    ensures var p := ChunkPlan(c, paddings, cornerX, cornerY, shadow.Value(), bgColor, fillColor);
            chunk[..] == ChunkBytes(HeaderPaddings(c, paddings), p.xDiv, p.yDiv, SlotColors(p.colorCount, p.colorsAt, p.color))
  {
    var p := ChunkPlan(c, paddings, cornerX, cornerY, shadow.Value(), bgColor, fillColor);
    chunk := WriteChunk(c, paddings, p.xDiv, p.yDiv, p.colorCount, p.colorsAt, p.color);
  }

  /** Number of regions a div pair `[x, x + 1]` cuts a span of `size`
      pixels into, and the index of the stretchable one among them. */
  function Regions(x: int, size: int): nat
  {
    (if x > 0 then 1 else 0) + 1 + (if x + 1 < size then 1 else 0)
  }

  function StretchIndex(x: int): nat
  {
    if x > 0 then 1 else 0
  }

  /** The row-major index of the stretchable cell of a grid `cols` wide. */
  function StretchCell(xDiv: int, yDiv: int, cols: nat): nat
  {
    (if yDiv > 0 then cols else 0) + StretchIndex(xDiv)
  }

  /** Which sides each variant has. */
  lemma VariantSides(c: CornerSet)
    ensures HasLeft(c) <==> !(c.TopRight? || c.BottomRight? || c.BothRight? || c.Horizontal?)
    ensures HasRight(c) <==> !(c.TopLeft? || c.BottomLeft? || c.BothLeft? || c.Horizontal?)
    ensures HasTop(c) <==> !(c.BottomLeft? || c.BottomRight? || c.BothBottom? || c.Vertical?)
    ensures HasBottom(c) <==> !(c.TopLeft? || c.TopRight? || c.BothTop? || c.Vertical?)
  {
    var f := Flags(c);
    SideMasks(f);
    LeftFlags(c);
    RightFlags(c);
    TopFlags(c);
    BottomFlags(c);
  }

  lemma LeftFlags(c: CornerSet)
    ensures Flags(c)[0] == 1 || Flags(c)[6] == 1 || Flags(c)[7] == 1 <==>
            !(c.TopRight? || c.BottomRight? || c.BothRight? || c.Horizontal?)
  {
  }

  lemma RightFlags(c: CornerSet)
    ensures Flags(c)[2] == 1 || Flags(c)[3] == 1 || Flags(c)[4] == 1 <==>
            !(c.TopLeft? || c.BottomLeft? || c.BothLeft? || c.Horizontal?)
  {
  }

  lemma TopFlags(c: CornerSet)
    ensures Flags(c)[0] == 1 || Flags(c)[1] == 1 || Flags(c)[2] == 1 <==>
            !(c.BottomLeft? || c.BottomRight? || c.BothBottom? || c.Vertical?)
  {
  }

  lemma BottomFlags(c: CornerSet)
    ensures Flags(c)[4] == 1 || Flags(c)[5] == 1 || Flags(c)[6] == 1 <==>
            !(c.TopLeft? || c.TopRight? || c.BothTop? || c.Vertical?)
  {
  }

  /** The per-variant table agrees with the geometry. For a tile measured
      with the same corner on both axes, each div pair lies inside the
      tile, and the region count is the number of columns times the number
      of rows the divs cut it into. */
  lemma ChunkPlanMatchesGrid(c: CornerSet, paddings: Rect, corner: int, shadow: ShadowValue, bgColor: Int, fillColor: Int)
    requires corner >= 1
    requires paddings.left >= 0 && paddings.top >= 0 && paddings.right >= 0 && paddings.bottom >= 0
    ensures var p := ChunkPlan(c, paddings, corner, corner, shadow, bgColor, fillColor);
            var w, h := MeasureWidth(c, paddings, corner, shadow), MeasureHeight(c, paddings, corner, shadow);
            0 <= p.xDiv && p.xDiv + 1 <= w && 0 <= p.yDiv && p.yDiv + 1 <= h &&
            Regions(p.xDiv, w) == GridCols(c) && Regions(p.yDiv, h) == GridRows(c) &&
            p.colorCount == GridCols(c) * GridRows(c)
  {
    ColumnsMatch(c, paddings, corner, shadow, bgColor, fillColor);
    RowsMatch(c, paddings, corner, shadow, bgColor, fillColor);
    CountMatches(c, paddings, corner, shadow, bgColor, fillColor);
  }

  lemma ColumnsMatch(c: CornerSet, paddings: Rect, corner: int, shadow: ShadowValue, bgColor: Int, fillColor: Int)
    requires corner >= 1
    requires paddings.left >= 0 && paddings.top >= 0 && paddings.right >= 0 && paddings.bottom >= 0
    ensures var p, w := ChunkPlan(c, paddings, corner, corner, shadow, bgColor, fillColor), MeasureWidth(c, paddings, corner, shadow);
            0 <= p.xDiv && p.xDiv + 1 <= w && Regions(p.xDiv, w) == GridCols(c)
  {
    VariantSides(c);
  }

  lemma RowsMatch(c: CornerSet, paddings: Rect, corner: int, shadow: ShadowValue, bgColor: Int, fillColor: Int)
    requires corner >= 1
    requires paddings.left >= 0 && paddings.top >= 0 && paddings.right >= 0 && paddings.bottom >= 0
    ensures var p, h := ChunkPlan(c, paddings, corner, corner, shadow, bgColor, fillColor), MeasureHeight(c, paddings, corner, shadow);
            0 <= p.yDiv && p.yDiv + 1 <= h && Regions(p.yDiv, h) == GridRows(c)
  {
    VariantSides(c);
  }

  lemma CountMatches(c: CornerSet, paddings: Rect, corner: int, shadow: ShadowValue, bgColor: Int, fillColor: Int)
    ensures ChunkPlan(c, paddings, corner, corner, shadow, bgColor, fillColor).colorCount == GridCols(c) * GridRows(c)
  {
  }

  /** Columns and rows of each variant's grid. */
  function GridCols(c: CornerSet): nat
  {
    if c.Horizontal? then 1
    else if c.TopLeft? || c.TopRight? || c.BottomLeft? || c.BottomRight? || c.BothLeft? || c.BothRight? then 2
    else 3
  }

  function GridRows(c: CornerSet): nat
  {
    if c.Vertical? then 1
    else if c.TopLeft? || c.TopRight? || c.BottomLeft? || c.BottomRight? || c.BothTop? || c.BothBottom? then 2
    else 3
  }

  /** The filled slot is the stretchable cell of the grid: the cell in
      the stretchable column of the stretchable row. */
  lemma ChunkPlanFillsStretchCell(c: CornerSet, paddings: Rect, corner: int, shadow: ShadowValue, bgColor: Int, fillColor: Int)
    requires !IsBetween(c)
    requires corner >= 1
    requires paddings.left >= 0 && paddings.top >= 0 && paddings.right >= 0 && paddings.bottom >= 0
    ensures var p := ChunkPlan(c, paddings, corner, corner, shadow, bgColor, fillColor);
            p.colorsAt == Bit(StretchCell(p.xDiv, p.yDiv, GridCols(c)))
  {
    var p := ChunkPlan(c, paddings, corner, corner, shadow, bgColor, fillColor);
    match c
    case TopLeft => assert StretchCell(p.xDiv, p.yDiv, GridCols(c)) == 3;
    case TopRight => assert StretchCell(p.xDiv, p.yDiv, GridCols(c)) == 2;
    case BottomLeft => assert StretchCell(p.xDiv, p.yDiv, GridCols(c)) == 1;
    case BottomRight => assert StretchCell(p.xDiv, p.yDiv, GridCols(c)) == 0;
    case BothLeft => assert StretchCell(p.xDiv, p.yDiv, GridCols(c)) == 3;
    case BothTop => assert StretchCell(p.xDiv, p.yDiv, GridCols(c)) == 4;
    case BothRight => assert StretchCell(p.xDiv, p.yDiv, GridCols(c)) == 2;
    case BothBottom => assert StretchCell(p.xDiv, p.yDiv, GridCols(c)) == 1;
    case Horizontal => assert StretchCell(p.xDiv, p.yDiv, GridCols(c)) == 1;
    case Vertical => assert StretchCell(p.xDiv, p.yDiv, GridCols(c)) == 1;
    case All => assert StretchCell(p.xDiv, p.yDiv, GridCols(c)) == 4;
  }

  /** For the `BETWEEN_*` variants the filled slots are the whole
      stretchable row (between bottom and top) or the whole stretchable
      column (between right and left) of the 3 by 3 grid. */
  lemma ChunkPlanFillsStretchLine(c: CornerSet, paddings: Rect, corner: int, shadow: ShadowValue, bgColor: Int, fillColor: Int)
    requires IsBetween(c)
    requires corner >= 1
    requires paddings.left >= 0 && paddings.top >= 0 && paddings.right >= 0 && paddings.bottom >= 0
    ensures var p := ChunkPlan(c, paddings, corner, corner, shadow, bgColor, fillColor);
            var cols := GridCols(c);
            (c.BetweenBottomAndTop? ==>
              p.yDiv > 0 && p.colorsAt == Bit(cols) | Bit(cols + 1) | Bit(cols + 2)) &&
            (c.BetweenRightAndLeft? ==>
              p.xDiv > 0 && p.colorsAt == Bit(1) | Bit(1 + cols) | Bit(1 + 2 * cols))
  {
    if c.BetweenBottomAndTop? {
      assert Bits[3] | Bits[4] | Bits[5] == (1 << 3) | (1 << 4) | (1 << 5);
    } else {
      assert Bits[1] | Bits[4] | Bits[7] == (1 << 1) | (1 << 4) | (1 << 7);
    }
  }

  /** What a reader of the chunk finds: the paddings of the present sides,
      the two div pairs, and `color` exactly in the marked slots. */
  lemma ChunkReadsBack(c: CornerSet, paddings: Rect, xDiv: int, yDiv: int, n: nat, colorsAt: bv32, color: Int)
    requires n < 256
    ensures var d := Decode(ChunkBytes(HeaderPaddings(c, paddings), xDiv, yDiv, SlotColors(n, colorsAt, color)));
      d.Some? && d.value.version == 1 &&
      d.value.paddings.left == (if HasLeft(c) then Wrap32(paddings.left) else 0) &&
      d.value.paddings.top == (if HasTop(c) then Wrap32(paddings.top) else 0) &&
      d.value.paddings.right == (if HasRight(c) then Wrap32(paddings.right) else 0) &&
      d.value.paddings.bottom == (if HasBottom(c) then Wrap32(paddings.bottom) else 0) &&
      d.value.xDivs == [Wrap32(xDiv), Wrap32(xDiv + 1)] &&
      d.value.yDivs == [Wrap32(yDiv), Wrap32(yDiv + 1)] &&
      |d.value.colors| == n &&
      forall j :: 0 <= j < n ==> d.value.colors[j] == (if Marked(colorsAt, j) then Unsigned(color) else 1)
  {
    var colors := SlotColors(n, colorsAt, color);
    ChunkRoundTrip(HeaderPaddings(c, paddings), xDiv, yDiv, colors);
  }

  // ---------------------------------------------------------------------------
  // inset

  /** The insets `inset` wraps the drawable with (left, top, right,
      bottom): minus the padding of every present side, except along the
      stretchable axis of a `BETWEEN_*` variant. Outside those variants the
      inset undoes exactly the paddings the chunk declares. */
  function Inset(c: CornerSet, paddings: Rect): (r: Rect)
    ensures !IsBetween(c) ==>
      var hp := HeaderPaddings(c, paddings);
      r == Rect(-hp.left, -hp.top, -hp.right, -hp.bottom)
    ensures c.BetweenRightAndLeft? ==>
      r == Rect(0, -HeaderPaddings(c, paddings).top, 0, -HeaderPaddings(c, paddings).bottom)
    ensures c.BetweenBottomAndTop? ==>
      r == Rect(-HeaderPaddings(c, paddings).left, 0, -HeaderPaddings(c, paddings).right, 0)
  {
    var nbrl := c != BetweenRightAndLeft;
    var nbbt := c != BetweenBottomAndTop;
    Rect(if nbrl && HasLeft(c) then -paddings.left else 0,
         if nbbt && HasTop(c) then -paddings.top else 0,
         if nbrl && HasRight(c) then -paddings.right else 0,
         if nbbt && HasBottom(c) then -paddings.bottom else 0)
  }
}
