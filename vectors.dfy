/** Two-dimensional vectors: the `Vector` helper the denizens use for positions and velocities. */
module Vectors {

  datatype Vector = Vector(x: real, y: real)

  /** `a.add(b)`, and the in-place `addMut`, whose effect on a value is the same. */
  function Add(a: Vector, b: Vector): Vector
  {
    Vector(a.x + b.x, a.y + b.y)
  }

  /** `v.scale(k)` */
  function Scale(v: Vector, k: real): Vector
  {
    Vector(v.x * k, v.y * k)
  }

  /** The square of `v.magnitude()`; comparing squares avoids the square root. */
  function MagnitudeSquared(v: Vector): (m: real)
    ensures m >= 0.0
  {
    assert v.x * v.x >= 0.0 && v.y * v.y >= 0.0;
    v.x * v.x + v.y * v.y
  }

  function DistanceSquared(a: Vector, b: Vector): (d: real)
    ensures d >= 0.0
  {
    MagnitudeSquared(Vector(a.x - b.x, a.y - b.y))
  }

  /** `b` lies within distance `r` of `a`. */
  predicate Near(a: Vector, b: Vector, r: real)
  {
    0.0 <= r && DistanceSquared(a, b) <= r * r
  }
}
