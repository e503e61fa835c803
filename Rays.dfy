/** Rays (Ray.cs): an origin and a direction. `Bounce`, which also needs a hit record,
    is in module Bounces; the random `WeightedBounce` and `ConeBounce` are parameters there. */
module Rays {
  import V = Vectors

  datatype Ray = Ray(origin: V.Vector, direction: V.Vector)

  /** `r.Position(t) = Origin + t Direction` (built with the named `Add`, so `w` is 1). */
  function Position(r: Ray, t: real): V.Vector {
    V.Add(r.origin, V.MulScalar(r.direction, t))
  }

  /** A position is the origin displaced by `t` directions: at 0 it is the origin, and
      advancing from `Position(s)` by `t` reaches `Position(s + t)`. */
  lemma PositionProperties(r: Ray, s: real, t: real)
    ensures Position(r, 0.0) == V.Point(r.origin)
    ensures V.Sub(Position(r, t), r.origin) == V.MulScalar(r.direction, t)
    ensures Position(Ray(Position(r, s), r.direction), t) == Position(r, s + t)
  {
  }

  /** `n.Reflect(i)`: from `n`'s origin, the mirror image of `i`'s direction about `n`'s. */
  function Reflect(n: Ray, i: Ray): Ray {
    Ray(n.origin, V.Reflect(n.direction, i.direction))
  }

  /** The reflected ray starts where `n` does; about a unit normal it leaves at the mirror
      angle with the incoming length, and reflecting it again restores the incoming direction. */
  lemma ReflectRay(n: Ray, i: Ray)
    requires V.LengthSquared(n.direction) == 1.0
    ensures Reflect(n, i).origin == n.origin
    ensures V.Dot(n.direction, Reflect(n, i).direction) == -V.Dot(n.direction, i.direction)
    ensures V.LengthSquared(Reflect(n, i).direction) == V.LengthSquared(i.direction)
    ensures Reflect(n, Reflect(n, i)).direction == V.Point(i.direction)
  {
    V.ReflectProperties(n.direction, i.direction);
  }

  /** `n.Refract(i, n1, n2)`: from `n`'s origin, the refracted direction of `i`. */
  function Refract(n: Ray, i: Ray, n1: real, n2: real, sqrt: real -> real): (r: Ray)
    requires n2 != 0.0
    ensures r.origin == n.origin
    ensures V.SinT2(n.direction, i.direction, n1, n2) > 1.0 <==> r.direction == V.Zero
  {
    Ray(n.origin, V.Refract(n.direction, i.direction, n1, n2, sqrt))
  }

  /** `n.Reflectance(i, n1, n2)`, the Fresnel reflectance of the two directions. */
  function Reflectance(n: Ray, i: Ray, n1: real, n2: real, sqrt: real -> real): (p: real)
    requires V.ReflectanceDefined(n.direction, i.direction, n1, n2, sqrt)
    ensures V.SinT2(n.direction, i.direction, n1, n2) > 1.0 ==> p == 1.0
  {
    V.Reflectance(n.direction, i.direction, n1, n2, sqrt)
  }
}
