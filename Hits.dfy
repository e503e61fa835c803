/** Ray hits (Hit.cs) and the operations every shape offers (the `IShape` interface). */
module Hits {
  import N = Numeric
  import opened Vectors
  import R = Rays
  import B = Boxes
  import M = Materials
  import C = Colours

  /** `Hit.INF`: the parameter of a miss. */
  const HitInf: real := 1000000000.0

  /** The full record of a hit: where, the normal facing the ray, the normal ray, the
      material there and whether the ray was inside the shape. */
  datatype HitInfo<S> = HitInfo(shape: S, position: Vector, normal: Vector, ray: R.Ray,
                                material: M.Material, inside: bool)

  /** A hit: the shape (absent for a miss), the ray parameter and an optional cached info. */
  datatype Hit<S> = Hit(shape: N.Option<S>, t: real, info: N.Option<HitInfo<S>>)

  /** `Hit.NoHit` */
  function NoHit<S>(): (h: Hit<S>)
    ensures h.shape.None? && h.t == HitInf && h.info.None?
    ensures !Ok(h)
  {
    Hit(N.None, HitInf, N.None)
  }

  /** `Hit.Ok()` */
  predicate Ok<S>(h: Hit<S>) {
    h.t < HitInf
  }

  /** The shape interface as a record of its operations on shapes of type `S`:
      `BoundingBox`, `Intersect`, `UV`, `NormalAt` and `MaterialAt`. `keepsOutside` tells
      the shapes (volumes, signed-distance shapes, spherical harmonics) for which
      `Hit.Info` never reports the ray as inside. */
  datatype ShapeOps<!S> = ShapeOps(
    bbox: S -> B.Box,
    intersect: (S, R.Ray) -> Hit<S>,
    uv: (S, Vector) -> Vector,
    normalAt: (S, Vector) -> Vector,
    materialAt: (S, Vector) -> M.Material,
    keepsOutside: S -> bool)

  /** `Hit.Info(r)`. A cached info is returned as it is. Otherwise, at the hit position,
      the shape's normal is turned to face the ray: if it points along the ray it is
      negated and the ray is inside, except for the shapes that keep the ray outside. A
      hit without shape and without info would dereference `null` and is excluded. */
  function Info<S>(ops: ShapeOps<S>, h: Hit<S>, r: R.Ray,
                   sample: (M.Texture, real, real) -> C.Colour): (i: HitInfo<S>)
    requires h.info.Some? || h.shape.Some?
    ensures h.info.Some? ==> i == h.info.value
    ensures h.info.None? ==>
      var s := h.shape.value;
      var n := ops.normalAt(s, R.Position(r, h.t));
      && i.shape == s
      && i.position == R.Position(r, h.t)
      && i.material == M.MaterialAt(ops.materialAt(s, i.position), ops.uv(s, i.position), sample)
      && (i.normal == n || i.normal == Negate(n))
      && Dot(i.normal, r.direction) <= 0.0
      && (i.inside <==> Dot(n, r.direction) > 0.0 && !ops.keepsOutside(s))
      && i.ray == R.Ray(i.position, i.normal)
  {
    if h.info.Some? then h.info.value
    else
      var s := h.shape.value;
      var position := R.Position(r, h.t);
      var normal := ops.normalAt(s, position);
      var material := M.MaterialAt(ops.materialAt(s, position), ops.uv(s, position), sample);
      var flip := Dot(normal, r.direction) > 0.0;
      var normal' := if flip then Negate(normal) else normal;
      var inside := flip && !ops.keepsOutside(s);
      HitInfo(s, position, normal', R.Ray(position, normal'), material, inside)
  }
}
