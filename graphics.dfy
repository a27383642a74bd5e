/** The Android geometry types the library computes with: the integer
    `Rect` (paddings and drawable bounds, only ever read here), the float
    `RectF` that is built and then moved or edited in place, and plain
    boxes that record what was clipped or drawn. */
module Graphics {
  import opened Java

  /** `android.graphics.Rect` as the library uses it: a value it reads. */
  datatype Rect = Rect(left: int, top: int, right: int, bottom: int)
  {
    /** `Rect.width()`. */
    function Width(): int { right - left }
    /** `Rect.height()`. */
    function Height(): int { bottom - top }
    /** `Rect.centerX()`: `(left + right) >> 1`, rounded toward minus
        infinity; it lies between the two edges, whichever is larger. */
    function CenterX(): (c: int)
      ensures left <= right ==> left <= c <= right
      ensures right <= left ==> right <= c <= left
    {
      (left + right) / 2
    }
    /** `Rect.centerY()`. */
    function CenterY(): (c: int)
      ensures top <= bottom ==> top <= c <= bottom
      ensures bottom <= top ==> bottom <= c <= top
    {
      (top + bottom) / 2
    }
  }

  /** A rectangle handed to a canvas call (a clip or a shape drawn). */
  datatype Box = Box(left: real, top: real, right: real, bottom: real)

  /** `android.graphics.RectF`: four float edges updated in place. Values
      written here are exact reals (float rounding is not modelled). */
  class RectF {
    var left: real
    var top: real
    var right: real
    var bottom: real

    constructor (l: real, t: real, r: real, b: real)
      ensures left == l && top == t && right == r && bottom == b
    {
      left, top, right, bottom := l, t, r, b;
    }

    function Width(): real
      reads this
    {
      right - left
    }

    function Height(): real
      reads this
    {
      bottom - top
    }

    /** The rectangle as a value. */
    function AsBox(): Box
      reads this
    {
      Box(left, top, right, bottom)
    }

    /** `RectF.set(l, t, r, b)`. */
    method Set(l: real, t: real, r: real, b: real)
      modifies this
      ensures left == l && top == t && right == r && bottom == b
    {
      left, top, right, bottom := l, t, r, b;
    }

    /** `RectF.offset(dx, dy)`: moves the rectangle, keeping its size. */
    method Offset(dx: real, dy: real)
      modifies this
      ensures left == old(left) + dx && right == old(right) + dx
      ensures top == old(top) + dy && bottom == old(bottom) + dy
      ensures Width() == old(Width()) && Height() == old(Height())
    {
      left, right := left + dx, right + dx;
      top, bottom := top + dy, bottom + dy;
    }
  }
}
