/**
 * Stand-ins for the engine's `Vector2` and `Rectangle`, and for the Kotlin
 * numeric helpers the core relies on (`toInt`, `minOf`, `coerceIn`).
 */
module Geometry {

  /** A 2D vector or point. */
  datatype Vec2 = Vec2(x: real, y: real)

  const Zero: Vec2 := Vec2(0.0, 0.0)

  /** An axis-aligned rectangle: lower-left corner plus extent. */
  datatype Rect = Rect(x: real, y: real, width: real, height: real)

  /**
   * `a.overlaps(b)`: strict overlap on both axes, so rectangles that only
   * share an edge do not overlap. The engine's own implementation is not part
   * of this model; this is the assumed behaviour.
   */
  predicate Overlaps(a: Rect, b: Rect) {
    && a.x < b.x + b.width && a.x + a.width > b.x
    && a.y < b.y + b.height && a.y + a.height > b.y
  }

  /** `Float.toInt()`: truncation toward zero (not the floor). */
  function Trunc(v: real): (n: int)
    ensures 0.0 <= v ==> n as real <= v < n as real + 1.0
    ensures v < 0.0 ==> n as real - 1.0 < v <= n as real
  {
    if 0.0 <= v then v.Floor else -((-v).Floor)
  }

  /** `minOf(a, b)`. */
  function Min(a: real, b: real): (r: real)
    ensures r <= a && r <= b
    ensures r == a || r == b
  {
    if a <= b then a else b
  }

  /** `v.coerceIn(lo, hi)`; Kotlin throws when `lo > hi`, hence the precondition. */
  function Clamp(v: real, lo: real, hi: real): (r: real)
    requires lo <= hi
    ensures lo <= r <= hi
    ensures lo <= v <= hi ==> r == v
    ensures v < lo ==> r == lo
    ensures hi < v ==> r == hi
  {
    if v < lo then lo else if hi < v then hi else v
  }
}
