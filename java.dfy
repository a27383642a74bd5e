/** Java and Android value semantics that the library relies on: 32-bit
    `int` arithmetic, truncating division, IEEE `float` values with their
    NaN/infinity corner cases, the casts `(int) f` and `Math.round(f)`, and
    the exceptions the library throws, as values. */
module Java {

  const MinInt: int := -0x8000_0000
  const MaxInt: int := 0x7FFF_FFFF
  const TwoTo32: int := 0x1_0000_0000

  /** A Java `int`. */
  type Int = x: int | -0x8000_0000 <= x <= 0x7FFF_FFFF

  /** Two's-complement narrowing of a mathematical integer to a Java `int`
      (what `int` addition does when it overflows). */
  function Wrap32(x: int): (r: Int)
    ensures (r - x) % TwoTo32 == 0
    ensures MinInt <= x <= MaxInt ==> r == x
    ensures MaxInt < x <= MaxInt + TwoTo32 ==> r == x - TwoTo32
    ensures MinInt - TwoTo32 <= x < MinInt ==> r == x + TwoTo32
  {
    var u := x % TwoTo32;
    if u <= MaxInt then u else u - TwoTo32
  }

  /** Java's `a / b` on `int`: the quotient truncated toward zero
      (Dafny's own `/` is Euclidean). */
  function JavaDiv(a: int, b: int): (q: int)
    requires b != 0
    ensures a >= 0 && b > 0 ==> q == a / b
    ensures var rem := a - q * b; (a >= 0 ==> 0 <= rem) && (a <= 0 ==> rem <= 0)
    ensures var rem := a - q * b; -(if b > 0 then b else -b) < rem < (if b > 0 then b else -b)
  {
    var n := if a >= 0 then a else -a;
    var d := if b >= 0 then b else -b;
    var m := n / d;
    if (a >= 0) == (b > 0) then m else -m
  }

  // ---------------------------------------------------------------------------
  // float

  /** A Java `float`. Finite values are exact reals: rounding to 24 bits of
      mantissa and the sign of zero are not modelled. */
  datatype Float = Num(v: real) | NaN | Inf(positive: bool)

  predicate IsFinite(f: Float) { f.Num? }

  /** `Float.isNaN(f)`. */
  predicate IsNaN(f: Float) { f.NaN? }

  /** Java's `a == b` on floats: false whenever either side is NaN. */
  predicate FEq(a: Float, b: Float) { !a.NaN? && a == b }

  /** Java's `a != b` on floats: true whenever either side is NaN. */
  predicate FNe(a: Float, b: Float) { !FEq(a, b) }

  /** `Float.compare(a, b) == 0`: NaN equals NaN. */
  predicate FSame(a: Float, b: Float) { a == b }

  /** Java's `a < b` on floats. */
  predicate FLess(a: Float, b: Float)
  {
    match (a, b)
    case (NaN, _) => false
    case (_, NaN) => false
    case (Num(x), Num(y)) => x < y
    case (Inf(p), Num(_)) => !p
    case (Num(_), Inf(q)) => q
    case (Inf(p), Inf(q)) => !p && q
  }

  /** Java's `a + b` on floats (exact on finite values). */
  function FAdd(a: Float, b: Float): Float
  {
    match (a, b)
    case (NaN, _) => NaN
    case (_, NaN) => NaN
    case (Num(x), Num(y)) => Num(x + y)
    case (Inf(p), Num(_)) => Inf(p)
    case (Num(_), Inf(q)) => Inf(q)
    case (Inf(p), Inf(q)) => if p == q then Inf(p) else NaN
  }

  function FNeg(a: Float): Float
  {
    match a
    case NaN => NaN
    case Num(x) => Num(-x)
    case Inf(p) => Inf(!p)
  }

  /** Java's `a - b` on floats. */
  function FSub(a: Float, b: Float): Float { FAdd(a, FNeg(b)) }

  /** `Math.min(a, b)` on floats: NaN if either argument is NaN. */
  function FMin(a: Float, b: Float): Float
  {
    if a.NaN? || b.NaN? then NaN else if FLess(b, a) then b else a
  }

  /** The float that an `int` converts to (exact in this model). */
  function FromInt(i: int): Float { Num(i as real) }

  /** Truncation of a real toward zero. */
  function Trunc(v: real): (t: int)
    ensures v >= 0.0 ==> t as real <= v < t as real + 1.0
    ensures v <= 0.0 ==> t as real - 1.0 < v <= t as real
  {
    if v >= 0.0 then v.Floor else -((-v).Floor)
  }

  /** The cast `(int) f`: NaN becomes 0, other values are truncated toward
      zero and saturate at the ends of the `int` range. */
  function ToInt(f: Float): (i: Int)
    ensures f.Num? && MinInt as real <= f.v <= MaxInt as real ==> i == Trunc(f.v)
  {
    match f
    case NaN => 0
    case Inf(p) => if p then MaxInt else MinInt
    case Num(v) =>
      var t := Trunc(v);
      if t > MaxInt then MaxInt else if t < MinInt then MinInt else t
  }

  /** `Math.round(f)` for a float: the nearest `int`, halves rounded up,
      NaN to 0, saturating at the ends of the range. */
  function Round(f: Float): (i: Int)
    ensures f.Num? && MinInt as real <= f.v + 0.5 < MaxInt as real + 1.0 ==>
              i as real - 0.5 <= f.v < i as real + 0.5
  {
    match f
    case NaN => 0
    case Inf(p) => if p then MaxInt else MinInt
    case Num(v) =>
      var t := (v + 0.5).Floor;
      if t > MaxInt then MaxInt else if t < MinInt then MinInt else t
  }

  // ---------------------------------------------------------------------------
  // exceptions as values

  /** The `IllegalArgumentException`s the library throws, one per message. */
  datatype Error =
    | MustBeFinite(name: string)
    | MustBeNonNegative(name: string)
    | PaddingsEatCorners

  datatype Option<+T> = None | Some(value: T)

  datatype Result<+T> = Ok(value: T) | Err(error: Error)

  datatype Outcome = Pass | Fail(error: Error)
}
