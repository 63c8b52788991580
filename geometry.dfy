/**
 * Rectangles and coordinates as the swipe controller uses them: Android's
 * RectF for button hit regions, and the float-to-int cast the touch listener
 * applies to raw pointer coordinates.
 */
module Geometry {

  /** A float rectangle given by its four edges, like android.graphics.RectF. */
  datatype Rect = Rect(left: real, top: real, right: real, bottom: real)

  /**
   * RectF.contains(x, y) on Android: the rectangle must be non-empty, and it
   * includes its left and top edges but not its right and bottom edges.
   */
  predicate Contains(r: Rect, x: real, y: real)
  {
    r.left < r.right && r.top < r.bottom &&
    r.left <= x < r.right && r.top <= y < r.bottom
  }

  /** Java's `(int)` cast of a float: the integer part, rounding toward zero. */
  function TruncateToInt(v: real): (n: int)
    ensures 0.0 <= v ==> 0 <= n && n as real <= v < n as real + 1.0
    ensures v < 0.0 ==> n <= 0 && n as real - 1.0 < v <= n as real
  {
    if 0.0 <= v then v.Floor else -((-v).Floor)
  }
}
