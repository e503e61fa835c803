/** Cylinders around the `z` axis between two caps (Cylinder.cs). */
module Cylinders {
  import N = Numeric
  import opened Vectors
  import R = Rays
  import B = Boxes
  import M = Materials
  import H = Hits

  datatype Cylinder = Cylinder(radius: real, z0: real, z1: real, material: M.Material)

  function NewCylinder(radius: real, z0: real, z1: real, material: M.Material): (c: Cylinder)
    ensures c.radius == radius && c.z0 == z0 && c.z1 == z1 && c.material == material
  {
    Cylinder(radius, z0, z1, material)
  }

  /** `BoundingBox()`: `[-R, R] x [-R, R] x [Z0, Z1]`. */
  function BoundingBox(c: Cylinder): (b: B.Box)
    ensures b.min == V3(-c.radius, -c.radius, c.z0) && b.max == V3(c.radius, c.radius, c.z1)
    ensures c.radius >= 0.0 && c.z0 <= c.z1 ==> B.WellFormed(b)
  {
    B.NewBox(V3(-c.radius, -c.radius, c.z0), V3(c.radius, c.radius, c.z1))
  }

  /** `p` lies on the infinite lateral surface. */
  predicate OnSide(c: Cylinder, p: Vector) {
    p.x * p.x + p.y * p.y == c.radius * c.radius
  }

  /** The ray's point at `t` lies strictly between the caps, with the source's `o.z + t d.z`. */
  predicate BetweenCaps(c: Cylinder, r: R.Ray, t: real) {
    c.z0 < r.origin.z + t * r.direction.z < c.z1
  }

  /** The coefficients `a t^2 + b t + k` of the squared distance from the axis, minus the
      squared radius, along the ray. */
  function Coefficients(c: Cylinder, r: R.Ray): (abk: (real, real, real))
    ensures abk.0 >= 0.0
  {
    var o, d := r.origin, r.direction;
    N.SquareNonNegative(d.x);
    N.SquareNonNegative(d.y);
    (N.Sq(d.x) + N.Sq(d.y), 2.0 * o.x * d.x + 2.0 * o.y * d.y, o.x * o.x + o.y * o.y - c.radius * c.radius)
  }

  /** The discriminant `b^2 - 4 a k`. */
  function Discriminant(c: Cylinder, r: R.Ray): real {
    var (a, b, k) := Coefficients(c, r);
    b * b - 4.0 * a * k
  }

  /** The two roots `(-b + s) / 2a` and `(-b - s) / 2a`, swapped when the first is larger. */
  function Roots(a: real, b: real, s: real): (t: (real, real))
    requires a != 0.0
    ensures t.0 <= t.1
    ensures t == ((-b + s) / (2.0 * a), (-b - s) / (2.0 * a)) || t == ((-b - s) / (2.0 * a), (-b + s) / (2.0 * a))
  {
    var t0 := (-b + s) / (2.0 * a);
    var t1 := (-b - s) / (2.0 * a);
    if t0 > t1 then (t1, t0) else (t0, t1)
  }

  /** The first of `t0`, `t1` beyond `EPS` whose point lies between the caps. */
  function Pick(c: Cylinder, r: R.Ray, t0: real, t1: real): (h: H.Hit<Cylinder>)
    ensures h == H.NoHit() || (h.shape == N.Some(c) && h.info.None? && (h.t == t0 || h.t == t1))
    ensures h != H.NoHit() <==>
      (t0 > N.EPS && BetweenCaps(c, r, t0)) || (t1 > N.EPS && BetweenCaps(c, r, t1))
    ensures h != H.NoHit() ==> h.t > N.EPS && BetweenCaps(c, r, h.t)
    ensures t0 > N.EPS && BetweenCaps(c, r, t0) ==> h.t == t0
  {
    if t0 > N.EPS && BetweenCaps(c, r, t0) then H.Hit(N.Some(c), t0, N.None)
    else if t1 > N.EPS && BetweenCaps(c, r, t1) then H.Hit(N.Some(c), t1, N.None)
    else H.NoHit()
  }

  /** `Intersect(r)`: no hit when the discriminant is below `EPS`; otherwise the nearer
      root beyond `EPS` whose point lies strictly between the caps, else the farther one. */
  function Intersect(c: Cylinder, r: R.Ray, sqrt: real -> real): (h: H.Hit<Cylinder>)
    ensures h == H.NoHit() || (h.shape == N.Some(c) && h.info.None? && h.t > N.EPS && BetweenCaps(c, r, h.t))
    ensures Discriminant(c, r) < N.EPS ==> h == H.NoHit()
  {
    var (a, b, k) := Coefficients(c, r);
    var q := Discriminant(c, r);
    if q < N.EPS then H.NoHit()
    else
      LeadingPositive(c, r);
      var (t0, t1) := Roots(a, b, sqrt(q));
      Pick(c, r, t0, t1)
  }

  /** A positive discriminant needs a direction that is not parallel to the axis, so the
      division by `2 a` is safe: a zero `a` makes `b` and the discriminant zero. */
  lemma LeadingPositive(c: Cylinder, r: R.Ray)
    ensures Coefficients(c, r).0 == 0.0 ==> Coefficients(c, r).1 == 0.0 && Discriminant(c, r) == 0.0
    ensures Discriminant(c, r) > 0.0 ==> Coefficients(c, r).0 > 0.0
  {
    var d := r.direction;
    if Coefficients(c, r).0 == 0.0 {
      N.SquareNonNegative(d.x);
      N.SquareNonNegative(d.y);
      assert d.x == 0.0 && d.y == 0.0;
    }
  }

  /** Along the ray, the squared distance from the axis minus the squared radius is the
      quadratic `a t^2 + b t + k`. */
  lemma Quadratic(c: Cylinder, r: R.Ray, t: real)
    ensures var (a, b, k) := Coefficients(c, r); var p := R.Position(r, t);
      p.x * p.x + p.y * p.y - c.radius * c.radius == a * t * t + b * t + k
    ensures var (a, b, k) := Coefficients(c, r); OnSide(c, R.Position(r, t)) <==> IsRoot(a, b, k, t)
  {
    var o, d := r.origin, r.direction;
    Expand(o.x, d.x, t);
    Expand(o.y, d.y, t);
  }

  /** `x` solves `a x^2 + b x + k = 0`. */
  predicate IsRoot(a: real, b: real, k: real, x: real) {
    a * x * x + b * x + k == 0.0
  }

  lemma Expand(o: real, d: real, t: real)
    ensures (o + d * t) * (o + d * t) == o * o + (2.0 * o * d) * t + N.Sq(d) * t * t
  {
  }

  /** `(-b + s) / 2a` and `(-b - s) / 2a` solve `a x^2 + b x + k = 0` when `s^2 = b^2 - 4 a k`. */
  lemma RootSolves(a: real, b: real, k: real, s: real, x: real)
    requires a > 0.0 && s * s == b * b - 4.0 * a * k
    requires x == (-b + s) / (2.0 * a) || x == (-b - s) / (2.0 * a)
    ensures IsRoot(a, b, k, x)
  {
    assert 2.0 * a * x == -b + s || 2.0 * a * x == -b - s;
    assert (2.0 * a * x + b) * (2.0 * a * x + b) == s * s;
    assert 4.0 * a * (a * x * x + b * x + k) == 0.0;
    ZeroFactor(4.0 * a, a * x * x + b * x + k);
  }

  lemma ZeroFactor(a: real, y: real)
    requires a > 0.0 && a * y == 0.0
    ensures y == 0.0
  {
    assert y == (a * y) / a;
  }

  /** ... and they are its only solutions. */
  lemma OnlyRoots(a: real, b: real, k: real, s: real, x: real)
    requires a > 0.0 && s >= 0.0 && s * s == b * b - 4.0 * a * k
    requires IsRoot(a, b, k, x)
    ensures x == (-b + s) / (2.0 * a) || x == (-b - s) / (2.0 * a)
  {
    assert (2.0 * a * x + b) * (2.0 * a * x + b) == s * s;
    N.SquareRoots(2.0 * a * x + b, s);
    if 2.0 * a * x + b == s {
      assert x == (2.0 * a * x) / (2.0 * a);
    } else {
      assert x == (2.0 * a * x) / (2.0 * a);
    }
  }

  /** Every hit lies on the lateral surface, strictly between the caps, beyond `EPS`. */
  lemma IntersectOnSide(c: Cylinder, r: R.Ray, sqrt: real -> real)
    requires N.IsSqrt(sqrt)
    ensures var h := Intersect(c, r, sqrt);
      h != H.NoHit() ==> h.t > N.EPS && BetweenCaps(c, r, h.t) && OnSide(c, R.Position(r, h.t))
  {
    var h := Intersect(c, r, sqrt);
    if h != H.NoHit() {
      HitIsRoot(c, r, sqrt);
      Quadratic(c, r, h.t);
    }
  }

  /** A hit's distance is a root of the quadratic. */
  lemma HitIsRoot(c: Cylinder, r: R.Ray, sqrt: real -> real)
    requires N.IsSqrt(sqrt)
    ensures var h := Intersect(c, r, sqrt); var (a, b, k) := Coefficients(c, r);
      h != H.NoHit() ==> IsRoot(a, b, k, h.t)
  {
    var h := Intersect(c, r, sqrt);
    if h != H.NoHit() {
      var (a, b, k) := Coefficients(c, r);
      var q := Discriminant(c, r);
      LeadingPositive(c, r);
      var s := sqrt(q);
      assert s * s == b * b - 4.0 * a * k;
      var (t0, t1) := Roots(a, b, s);
      assert h.t == t0 || h.t == t1;
      RootSolves(a, b, k, s, h.t);
    }
  }

  /** The hit is the nearest point of the lateral surface between the caps beyond `EPS`:
      every such point is at or after it, unless the discriminant is below `EPS`, which
      the source reports as a miss. */
  lemma IntersectNearest(c: Cylinder, r: R.Ray, sqrt: real -> real, t: real)
    requires N.IsSqrt(sqrt)
    requires t > N.EPS && BetweenCaps(c, r, t) && OnSide(c, R.Position(r, t))
    ensures Discriminant(c, r) >= N.EPS ==>
      var h := Intersect(c, r, sqrt); h.shape == N.Some(c) && h.t <= t
  {
    var (a, b, k) := Coefficients(c, r);
    var q := Discriminant(c, r);
    if q >= N.EPS {
      LeadingPositive(c, r);
      var s := sqrt(q);
      Quadratic(c, r, t);
      OnlyRoots(a, b, k, s, t);
      var (t0, t1) := Roots(a, b, s);
      assert t == t0 || t == t1;
    }
  }

  /** For a non-negative radius, every point of the lateral surface between the caps lies
      in the bounding box. */
  lemma SideInBox(c: Cylinder, p: Vector)
    requires c.radius >= 0.0 && OnSide(c, p) && c.z0 <= p.z <= c.z1
    ensures B.Contains(BoundingBox(c), p)
  {
    N.SquareNonNegative(p.x);
    N.SquareNonNegative(p.y);
    Bounded(p.x, c.radius);
    Bounded(p.y, c.radius);
  }

  lemma Bounded(x: real, r: real)
    requires r >= 0.0 && N.Sq(x) <= r * r
    ensures -r <= x <= r
  {
    if x > r {
      N.SquareStrict(r, x);
    } else if x < -r {
      N.SquareStrict(r, -x);
    }
  }

  /** `UV(p)`: the zero vector everywhere. */
  function UV(c: Cylinder, p: Vector): (uv: Vector)
    ensures uv == Zero
  {
    Zero
  }

  function MaterialAt(c: Cylinder, p: Vector): (m: M.Material)
    ensures m == c.material
  {
    c.material
  }

  /** `NormalAt(p)`: `p` with its `z` zeroed, normalised: the unit vector from the axis
      towards `p`. On the axis the source normalises the zero vector (NaN); that is
      excluded. */
  function NormalAt(c: Cylinder, p: Vector, sqrt: real -> real): (n: Vector)
    requires N.IsSqrt(sqrt) && (p.x != 0.0 || p.y != 0.0)
    ensures n.z == 0.0 && LengthSquared(n) == 1.0
    ensures exists k: real :: k > 0.0 && n == MulScalar(V3(p.x, p.y, 0.0), k)
  {
    var v := V3(p.x, p.y, 0.0);
    LengthSquaredPositive(v);
    var n := Normalize(v, sqrt);
    n
  }
}
