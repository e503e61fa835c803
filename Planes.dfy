/** Infinite planes (Plane.cs). */
module Planes {
  import N = Numeric
  import opened Vectors
  import R = Rays
  import B = Boxes
  import M = Materials
  import H = Hits

  datatype Plane = Plane(point: Vector, normal: Vector, material: M.Material, box: B.Box)

  /** The box of an unbounded shape: `Util.INF` in every direction. */
  function InfiniteBox(): (b: B.Box)
    ensures B.WellFormed(b)
    ensures forall p: Vector ::
      (N.Abs(p.x) <= N.INF && N.Abs(p.y) <= N.INF && N.Abs(p.z) <= N.INF ==> B.Contains(b, p))
  {
    B.NewBox(V3(-(N.INF as real), -(N.INF as real), -(N.INF as real)), V3(N.INF as real, N.INF as real, N.INF as real))
  }

  /** `NewPlane`: the normal is normalised. A zero normal would make it NaN and is
      excluded. */
  function NewPlane(point: Vector, normal: Vector, material: M.Material, sqrt: real -> real): (p: Plane)
    requires N.IsSqrt(sqrt) && LengthSquared(normal) > 0.0
    ensures p.point == point && p.material == material && p.box == InfiniteBox()
    ensures LengthSquared(p.normal) == 1.0
    ensures exists k: real :: k > 0.0 && p.normal == MulScalar(normal, k)
  {
    Plane(point, Normalize(normal, sqrt), material, InfiniteBox())
  }

  /** `BoundingBox()`: a fresh unbounded box, whatever the plane. */
  function BoundingBox(p: Plane): (b: B.Box)
    ensures b == InfiniteBox()
  {
    InfiniteBox()
  }

  /** `p` lies on the plane. */
  predicate OnPlane(pl: Plane, p: Vector) {
    Dot(Sub(p, pl.point), pl.normal) == 0.0
  }

  /** `Intersect(r)`: no hit when the ray runs parallel to the plane within `EPS`;
      otherwise the distance `((Point - O) . N) / (N . D)`, if it is not below `EPS`. */
  function Intersect(pl: Plane, r: R.Ray): (h: H.Hit<Plane>)
    ensures h == H.NoHit() || (h.shape == N.Some(pl) && h.t >= N.EPS && h.info.None?)
    ensures N.Abs(Dot(pl.normal, r.direction)) < N.EPS ==> h == H.NoHit()
  {
    var d := Dot(pl.normal, r.direction);
    if N.Abs(d) < N.EPS then H.NoHit()
    else
      var t := Dot(Sub(pl.point, r.origin), pl.normal) / d;
      if t < N.EPS then H.NoHit() else H.Hit(N.Some(pl), t, N.None)
  }

  /** The offset from the plane's point along the normal grows linearly along the ray. */
  lemma Offset(pl: Plane, r: R.Ray, t: real)
    ensures Dot(Sub(R.Position(r, t), pl.point), pl.normal)
         == t * Dot(pl.normal, r.direction) - Dot(Sub(pl.point, r.origin), pl.normal)
  {
    var n, o, d, q := pl.normal, r.origin, r.direction, pl.point;
    assert Dot(Sub(R.Position(r, t), q), n)
        == (o.x - q.x) * n.x + (o.y - q.y) * n.y + (o.z - q.z) * n.z
           + t * (n.x * d.x + n.y * d.y + n.z * d.z);
  }

  /** Every hit lies on the plane. */
  lemma IntersectOnPlane(pl: Plane, r: R.Ray)
    ensures var h := Intersect(pl, r); h != H.NoHit() ==> OnPlane(pl, R.Position(r, h.t))
  {
    var h := Intersect(pl, r);
    if h != H.NoHit() {
      var d := Dot(pl.normal, r.direction);
      var a := Dot(Sub(pl.point, r.origin), pl.normal);
      assert h.t == a / d;
      Offset(pl, r, h.t);
      assert h.t * d == a;
    }
  }

  /** A ray that is not parallel to the plane and reaches it at a distance of at least
      `EPS` hits it there: the plane's point on the ray is unique. */
  lemma IntersectFinds(pl: Plane, r: R.Ray, t: real)
    requires N.Abs(Dot(pl.normal, r.direction)) >= N.EPS
    requires t >= N.EPS && OnPlane(pl, R.Position(r, t))
    ensures Intersect(pl, r) == H.Hit(N.Some(pl), t, N.None)
  {
    var d := Dot(pl.normal, r.direction);
    var a := Dot(Sub(pl.point, r.origin), pl.normal);
    Offset(pl, r, t);
    assert t * d == a;
    assert a / d == t;
  }

  /** `UV(p)`: the zero vector everywhere. */
  function UV(pl: Plane, p: Vector): (uv: Vector)
    ensures uv == Zero
  {
    Zero
  }

  function MaterialAt(pl: Plane, p: Vector): (m: M.Material)
    ensures m == pl.material
  {
    pl.material
  }

  /** `NormalAt(p)`: the stored normal, whatever the point. */
  function NormalAt(pl: Plane, p: Vector): (n: Vector)
    ensures n == pl.normal
  {
    pl.normal
  }

  /** The normal and the material do not depend on the point, and a hit never runs
      parallel to the plane within `EPS`. */
  lemma NormalProperties(pl: Plane, r: R.Ray, p: Vector, q: Vector)
    ensures NormalAt(pl, p) == NormalAt(pl, q) && MaterialAt(pl, p) == MaterialAt(pl, q)
    ensures Intersect(pl, r) != H.NoHit() ==> N.Abs(Dot(NormalAt(pl, p), r.direction)) >= N.EPS
  {
  }
}
