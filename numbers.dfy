/** The numeric helpers of the library (Numbers.java): the rounding used for
    every shadow extent, argument validation, little-endian serialisation of
    an `int` into a byte array, and the `#AARRGGBB` text of a colour. */
module Numbers {
  import opened Java

  // ---------------------------------------------------------------------------
  // ceil

  /** `Numbers.ceil`: the cast `(int) f`, then one step AWAY from zero when
      `f` is not already integral. For positive values this is the ceiling;
      for negative values it is the floor, so the magnitude of a shadow
      extent is always rounded up. The comparison `f > i` widens `i` to a
      float, and `Integer.MAX_VALUE` widens to 2^31: a value up to 2^31
      stays at `MAX_VALUE`, anything above wraps to `MIN_VALUE` through
      `i++`, and anything below `MIN_VALUE` wraps to `MAX_VALUE` through
      `i--`. */
  function Ceil(f: Float): (r: Int)
    ensures f.Num? && 0.0 <= f.v <= MaxInt as real ==> r as real - 1.0 < f.v <= r as real
    ensures f.Num? && MinInt as real <= f.v <= 0.0 ==> r as real <= f.v < r as real + 1.0
    ensures f.Num? && MaxInt as real < f.v <= TwoTo31 as real ==> r == MaxInt
    ensures f.Num? && f.v > TwoTo31 as real ==> r == MinInt
    ensures f.Num? && f.v < MinInt as real ==> r == MaxInt
    ensures f.Inf? ==> r == (if f.positive then MinInt else MaxInt)
    ensures f.NaN? ==> r == 0
  {
    var i := ToInt(f);
    if FLess(Num(0.0), f) && FLess(Widen(i), f) then Wrap32(i + 1)
    else if FLess(f, Num(0.0)) && FLess(f, Widen(i)) then Wrap32(i - 1)
    else i
  }

  const TwoTo31: int := 0x8000_0000

  /** The `int` operand of `f > i` converted to `float`. Only
      `Integer.MAX_VALUE` changes: it rounds up to 2^31. Every other `int`
      that the cast of a float can produce is itself a float. */
  function Widen(i: Int): (w: Float)
    ensures w.Num? && w.v >= i as real && w.v <= i as real + 1.0
    ensures i < MaxInt ==> w == FromInt(i)
  {
    if i == MaxInt then Num(TwoTo31 as real) else FromInt(i)
  }

  /** Integral values inside the `int` range come back unchanged. */
  lemma CeilOfIntegral(n: Int)
    ensures Ceil(FromInt(n)) == n
  {
  }

  /** Negative non-integral values are rounded down, not up. */
  lemma CeilRoundsNegativesAwayFromZero()
    ensures Ceil(Num(-1.5)) == -2
    ensures Ceil(Num(1.5)) == 2
    ensures Ceil(Num(-0.25)) == -1
  {
  }

  /** Rounding commutes with negation on the finite `int` range: the
      magnitude is rounded the same way on both sides of zero. */
  lemma CeilIsOdd(f: Float)
    requires f.Num? && MinInt as real + 1.0 <= f.v <= MaxInt as real
    ensures Ceil(FNeg(f)) == -Ceil(f)
  {
    var r := Ceil(f);
    var s := Ceil(FNeg(f));
    if f.v >= 0.0 {
      assert r as real - 1.0 < f.v <= r as real;
      assert s as real <= -f.v < s as real + 1.0;
    } else {
      assert r as real <= f.v < r as real + 1.0;
      assert s as real - 1.0 < -f.v <= s as real;
    }
  }

  /** Finite values above 2^31 overflow: the cast saturates at
      `Integer.MAX_VALUE` and the increment wraps to `Integer.MIN_VALUE`.
      2^31 itself stays at `MAX_VALUE`, because that is where
      `MAX_VALUE` lands when widened for the comparison. */
  lemma CeilWrapsAboveIntRange(v: real)
    requires v > MaxInt as real + 1.0
    ensures Ceil(Num(v)) == MinInt
    ensures Ceil(Num(MaxInt as real + 1.0)) == MaxInt
  {
  }

  /** `max(i, ceil(f))`, the size a corner takes when it must hold both an
      integer radius and a float extent (a stroke, a shadow's blur). */
  function MaxCeil(i: int, f: Float): (c: int)
    ensures c >= i && c >= Ceil(f)
    ensures c == i || c == Ceil(f)
  {
    var s: int := Ceil(f);
    if i >= s then i else s
  }

  // ---------------------------------------------------------------------------
  // argument validation

  /** `Numbers.requireFinite`. */
  function RequireFinite(f: Float, name: string): (r: Result<Float>)
    ensures r.Ok? <==> IsFinite(f)
    ensures r.Ok? ==> r.value == f
    ensures r.Err? ==> r.error == MustBeFinite(name)
  {
    if f.Inf? || f.NaN? then Err(MustBeFinite(name)) else Ok(f)
  }

  /** `Numbers.requireNonNegative(float, String)`: finiteness is checked
      first, so NaN and both infinities report "must be finite". */
  function RequireNonNegativeF(f: Float, name: string): (r: Result<Float>)
    ensures r.Ok? <==> f.Num? && f.v >= 0.0
    ensures r.Ok? ==> r.value == f
    ensures !f.Num? ==> r == Err(MustBeFinite(name))
    ensures f.Num? && f.v < 0.0 ==> r == Err(MustBeNonNegative(name))
  {
    match RequireFinite(f, name)
    case Err(e) => Err(e)
    case Ok(_) => if FLess(f, Num(0.0)) then Err(MustBeNonNegative(name)) else Ok(f)
  }

  /** `Numbers.requireNonNegative(int, String)`. */
  function RequireNonNegativeI(i: Int, name: string): (r: Result<Int>)
    ensures r.Ok? <==> i >= 0
    ensures r.Ok? ==> r.value == i
    ensures r.Err? ==> r.error == MustBeNonNegative(name)
  {
    if i < 0 then Err(MustBeNonNegative(name)) else Ok(i)
  }

  // ---------------------------------------------------------------------------
  // little-endian words

  /** The bit pattern of a Java `byte`. */
  type Byte = b: int | 0 <= b < 256

  /** The 32-bit pattern of an `int` as an unsigned number (`x & 0xFFFFFFFFL`). */
  function Unsigned(x: int): (u: nat)
    ensures u < TwoTo32
    ensures Wrap32(u) == Wrap32(x)
  {
    x % TwoTo32
  }

  /** Reads four bytes as an unsigned little-endian word. */
  function U32(b: seq<Byte>): (u: nat)
    requires |b| == 4
    ensures u < TwoTo32
  {
    b[0] as int + 256 * (b[1] as int + 256 * (b[2] as int + 256 * b[3] as int))
  }

  /** Reads four bytes as a signed little-endian `int`. */
  function S32(b: seq<Byte>): Int
    requires |b| == 4
  {
    Wrap32(U32(b))
  }

  /** The four bytes `putLe` stores for `what`: bits 0-7, 8-15, 16-23 and
      24-31 (`what >>> 8k & 0xFF`). Any mathematical integer is accepted and
      reduced modulo 2^32, exactly as Java's overflowing `int` sums are. */
  function Le(what: int): (r: seq<Byte>)
    ensures |r| == 4
    ensures U32(r) == Unsigned(what)
    ensures S32(r) == Wrap32(what)
  {
    var u := Unsigned(what);
    var q1 := u / 256;
    var q2 := q1 / 256;
    var q3 := q2 / 256;
    [u % 256, q1 % 256, q2 % 256, q3 % 256]
  }

  /** `Numbers.putLe`: stores `what` little-endian at `to[at..at+4]` and
      returns the same array. */
  method PutLe(to: array<Byte>, at: int, what: int) returns (r: array<Byte>)
    requires 0 <= at && at + 4 <= to.Length
    modifies to
    ensures r == to
    ensures to[..] == old(to[..at]) + Le(what) + old(to[at + 4..])
  {
    var bytes := Le(what);
    to[at] := bytes[0];
    to[at + 1] := bytes[1];
    to[at + 2] := bytes[2];
    to[at + 3] := bytes[3];
    r := to;
  }

  // ---------------------------------------------------------------------------
  // colour text

  /** `HEX[d]`: the upper-case digit for 0 <= d < 16. */
  function HexChar(d: nat): (c: char)
    requires d < 16
  {
    if d < 10 then ('0' as int + d) as char else ('A' as int + d - 10) as char
  }

  predicate IsHexChar(c: char) { '0' <= c <= '9' || 'A' <= c <= 'F' }

  function HexValue(c: char): (n: nat)
    requires IsHexChar(c)
    ensures n < 16 && HexChar(n) == c
  {
    if '0' <= c <= '9' then c as int - '0' as int else c as int - 'A' as int + 10
  }

  function Pow16(n: nat): (p: nat)
    ensures p > 0
  {
    if n == 0 then 1 else 16 * Pow16(n - 1)
  }

  /** The last `n` hexadecimal digits of `u`, most significant first. */
  function Digits(u: nat, n: nat): (s: string)
    ensures |s| == n
    ensures forall i :: 0 <= i < n ==> IsHexChar(s[i])
  {
    if n == 0 then [] else Digits(u / 16, n - 1) + [HexChar(u % 16)]
  }

  /** The value of a string of hexadecimal digits. */
  function ParseHex(s: string): nat
    requires forall i :: 0 <= i < |s| ==> IsHexChar(s[i])
  {
    if |s| == 0 then 0 else ParseHex(s[..|s| - 1]) * 16 + HexValue(s[|s| - 1])
  }

  /** Division with remainder has one answer. */
  lemma DivModUnique(u: int, m: int, q: int, r: int)
    requires m > 0 && u == q * m + r && 0 <= r < m
    ensures u / m == q && u % m == r
  {
    var k := q - u / m;
    assert u == (u / m) * m + u % m;
    assert k * m == q * m - (u / m) * m;
    MulAtLeast(k, m);
    MulAtLeast(-k, m);
  }

  lemma MulAtLeast(k: int, m: int)
    ensures k >= 1 && m > 0 ==> k * m >= m
  {
    if k >= 1 && m > 0 {
      assert k * m == (k - 1) * m + m;
      assert (k - 1) * m >= 0;
    }
  }

  /** Dropping the last digit and re-appending it: u mod 16p is
      (u / 16 mod p) * 16 + u mod 16. */
  lemma ShiftDigit(u: nat, p: nat)
    requires p > 0
    ensures u % (16 * p) == ((u / 16) % p) * 16 + u % 16
  {
    var h := u / 16;
    var q := h / p;
    var t := h % p;
    assert h == q * p + t;
    assert u == 16 * h + u % 16;
    assert 16 * h == q * (16 * p) + 16 * t;
    assert t * 16 <= (p - 1) * 16;
    DivModUnique(u, 16 * p, q, t * 16 + u % 16);
  }

  /** Digit `i` of `n` printed digits is the digit of `u / 16^(n-1-i)`. */
  lemma {:induction false} DigitsAt(u: nat, n: nat, i: nat)
    requires i < n
    ensures Digits(u, n)[i] == HexChar(u / Pow16(n - 1 - i) % 16)
  {
    if i < n - 1 {
      DigitsAt(u / 16, n - 1, i);
      DivDiv(u, Pow16(n - 2 - i));
    }
  }

  /** Dividing by 16 and then by `p` is dividing by `16p`. */
  lemma DivDiv(u: nat, p: nat)
    requires p > 0
    ensures u / 16 / p == u / (16 * p)
  {
    var h := u / 16;
    var t := h % p;
    assert h == h / p * p + t;
    assert u == 16 * h + u % 16;
    assert 16 * h == h / p * (16 * p) + 16 * t;
    assert t * 16 <= (p - 1) * 16;
    DivModUnique(u, 16 * p, h / p, t * 16 + u % 16);
  }

  /** Reading back `n` printed digits recovers `u` modulo 16^n. */
  lemma {:induction false} ParseDigits(u: nat, n: nat)
    ensures ParseHex(Digits(u, n)) == u % Pow16(n)
  {
    if n > 0 {
      var s := Digits(u, n);
      assert s[..n - 1] == Digits(u / 16, n - 1);
      ParseDigits(u / 16, n - 1);
      var p := Pow16(n - 1);
      var h := u / 16;
      assert HexValue(s[n - 1]) == u % 16;
      assert ParseHex(s) == ParseHex(Digits(h, n - 1)) * 16 + u % 16;
      assert ParseHex(s) == (h % p) * 16 + u % 16;
      ShiftDigit(u, p);
    }
  }

  /** Bits 24-31 of a colour. */
  function Alpha(color: int): (a: nat)
    ensures a < 256
  {
    Unsigned(color) / 0x100_0000
  }

  /** `Numbers.appendColor`: appends `#`, then the colour's hexadecimal
      digits in upper case; the two alpha digits are written only when the
      colour is not opaque. The text read back gives the colour again. */
  function AppendColor(to: string, color: Int): (r: string)
    ensures |r| == |to| + (if Alpha(color) == 0xFF then 7 else 9)
    ensures r[..|to|] == to && r[|to|] == '#'
    ensures forall i :: |to| < i < |r| ==> IsHexChar(r[i])
    ensures Alpha(color) != 0xFF ==> Wrap32(ParseHex(r[|to| + 1..])) == color
    ensures Alpha(color) == 0xFF ==> Wrap32(0xFF00_0000 + ParseHex(r[|to| + 1..])) == color
  {
    var u := Unsigned(color);
    var digits := Digits(u, if Alpha(color) == 0xFF then 6 else 8);
    ParseDigits(u, |digits|);
    assert Pow16(6) == 0x100_0000 && Pow16(8) == TwoTo32;
    var r := to + ['#'] + digits;
    assert r[|to| + 1..] == digits;
    r
  }
}
