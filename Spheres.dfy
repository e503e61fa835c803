/** Spheres (Sphere.cs). */
module Spheres {
  import N = Numeric
  import opened Vectors
  import R = Rays
  import B = Boxes
  import M = Materials
  import H = Hits

  datatype Sphere = Sphere(center: Vector, radius: real, material: M.Material, box: B.Box)

  /** `NewSphere`: the box is the cube of half-side `radius` around the centre. */
  function NewSphere(center: Vector, radius: real, material: M.Material): (s: Sphere)
    ensures s.center == center && s.radius == radius && s.material == material
    ensures s.box.min == Sub(center, V3(radius, radius, radius))
    ensures s.box.max == Add(center, V3(radius, radius, radius))
    ensures radius >= 0.0 ==> B.WellFormed(s.box) && B.Contains(s.box, center)
  {
    var min := V3(center.x - radius, center.y - radius, center.z - radius);
    var max := V3(center.x + radius, center.y + radius, center.z + radius);
    Sphere(center, radius, material, B.NewBox(min, max))
  }

  function BoundingBox(s: Sphere): B.Box {
    s.box
  }

  predicate OnSurface(s: Sphere, p: Vector) {
    LengthSquared(Sub(p, s.center)) == s.radius * s.radius
  }

  /** The discriminant `b^2 - c` of the quadratic `t^2 + 2 b t + c` whose roots are the
      parameters where a unit-direction ray meets the sphere. */
  function Discriminant(s: Sphere, r: R.Ray): real {
    var to := Sub(r.origin, s.center);
    var b := Dot(to, r.direction);
    var c := Dot(to, to) - s.radius * s.radius;
    b * b - c
  }

  /** `Intersect(r)`: the smaller root if it lies beyond `EPS`, otherwise the larger one if
      it does; a tangent or missing ray gives `NoHit`. */
  function Intersect(s: Sphere, r: R.Ray, sqrt: real -> real): (h: H.Hit<Sphere>)
    ensures h == H.NoHit() || (h.shape == N.Some(s) && h.t > N.EPS && h.info.None?)
    ensures Discriminant(s, r) <= 0.0 ==> h == H.NoHit()
  {
    var to := Sub(r.origin, s.center);
    var b := Dot(to, r.direction);
    var d := Discriminant(s, r);
    if d > 0.0 then
      var d := sqrt(d);
      var t1 := -b - d;
      if t1 > N.EPS then H.Hit(N.Some(s), t1, N.None)
      else
        var t2 := -b + d;
        if t2 > N.EPS then H.Hit(N.Some(s), t2, N.None)
        else H.NoHit()
    else H.NoHit()
  }

  /** Along a unit direction, the squared distance to the centre minus the squared radius
      is the quadratic `t^2 + 2 b t + c`. */
  lemma Quadratic(s: Sphere, r: R.Ray, t: real)
    requires LengthSquared(r.direction) == 1.0
    ensures var to := Sub(r.origin, s.center);
      var b := Dot(to, r.direction);
      var c := Dot(to, to) - s.radius * s.radius;
      LengthSquared(Sub(R.Position(r, t), s.center)) - s.radius * s.radius == t * t + 2.0 * b * t + c
  {
    var to := Sub(r.origin, s.center);
    Displacement(r.origin, s.center, r.direction, t);
    UnitCombination(to, r.direction, t, LengthSquared(to), Dot(to, r.direction));
    LengthSquaredDot(to);
  }

  lemma Displacement(o: Vector, c: Vector, d: Vector, t: real)
    ensures Sub(R.Position(R.Ray(o, d), t), c) == Add(MulScalar(Sub(o, c), 1.0), MulScalar(d, t))
  {
  }

  lemma UnitCombination(to: Vector, d: Vector, t: real, lt: real, b: real)
    requires lt == LengthSquared(to) && b == Dot(to, d) && LengthSquared(d) == 1.0
    ensures LengthSquared(Add(MulScalar(to, 1.0), MulScalar(d, t))) == lt + 2.0 * b * t + t * t
  {
    LengthOfCombination(to, d, 1.0, t);
  }

  /** Every hit lies on the sphere, beyond `EPS` (for a unit direction, as the source
      assumes of every ray it traces). */
  lemma IntersectOnSurface(s: Sphere, r: R.Ray, sqrt: real -> real)
    requires N.IsSqrt(sqrt) && LengthSquared(r.direction) == 1.0
    ensures var h := Intersect(s, r, sqrt);
      h != H.NoHit() ==> h.t > N.EPS && OnSurface(s, R.Position(r, h.t))
  {
    var h := Intersect(s, r, sqrt);
    if h != H.NoHit() {
      var to := Sub(r.origin, s.center);
      var b := Dot(to, r.direction);
      var c := Dot(to, to) - s.radius * s.radius;
      var d := Discriminant(s, r);
      assert d == b * b - c;
      var sd := sqrt(d);
      assert h.t == -b - sd || h.t == -b + sd;
      RootSolves(b, c, sd, h.t);
      Quadratic(s, r, h.t);
    }
  }

  /** `-b - sd` and `-b + sd` solve `x^2 + 2 b x + c = 0` when `sd^2 = b^2 - c`. */
  lemma RootSolves(b: real, c: real, sd: real, x: real)
    requires sd * sd == b * b - c && (x == -b - sd || x == -b + sd)
    ensures x * x + 2.0 * b * x + c == 0.0
  {
    assert (x + b) * (x + b) == sd * sd;
  }

  /** ... and they are its only solutions. */
  lemma OnlyRoots(b: real, c: real, sd: real, x: real)
    requires sd >= 0.0 && sd * sd == b * b - c && x * x + 2.0 * b * x + c == 0.0
    ensures x == -b - sd || x == -b + sd
  {
    assert (x + b) * (x + b) == sd * sd;
    N.SquareRoots(x + b, sd);
  }

  /** The hit is the nearest point of the sphere beyond `EPS`: every such point is at or
      after it, unless the ray only touches the sphere (a zero discriminant), which the
      source reports as a miss. */
  lemma IntersectNearest(s: Sphere, r: R.Ray, sqrt: real -> real, t: real)
    requires N.IsSqrt(sqrt) && LengthSquared(r.direction) == 1.0
    requires t > N.EPS && OnSurface(s, R.Position(r, t))
    ensures Discriminant(s, r) >= 0.0
    ensures Discriminant(s, r) > 0.0 ==>
      var h := Intersect(s, r, sqrt); h.shape == N.Some(s) && h.t <= t
  {
    var to := Sub(r.origin, s.center);
    var b := Dot(to, r.direction);
    var c := Dot(to, to) - s.radius * s.radius;
    var d := Discriminant(s, r);
    assert d == b * b - c;
    Quadratic(s, r, t);
    assert t * t + 2.0 * b * t + c == 0.0;
    assert d == N.Sq(t + b);
    N.SquareNonNegative(t + b);
    if d > 0.0 {
      var sd := sqrt(d);
      OnlyRoots(b, c, sd, t);
    }
  }

  /** `UV(p)`: longitude and latitude of `p` around the centre, scaled to [0, 1]. */
  function UV(s: Sphere, p: Vector, atan2: (real, real) -> real, sqrt: real -> real): Vector {
    var p := Sub(p, s.center);
    var u := atan2(p.z, p.x);
    var v := atan2(p.y, Length(V3(p.x, 0.0, p.z), sqrt));
    V3(1.0 - (u + N.Pi) / (2.0 * N.Pi), (v + N.Pi / 2.0) / N.Pi, 0.0)
  }

  /** Texture coordinates lie in the unit square. */
  lemma UVRange(s: Sphere, p: Vector, atan2: (real, real) -> real, sqrt: real -> real)
    requires N.IsAtan2(atan2) && N.IsSqrt(sqrt)
    ensures 0.0 <= UV(s, p, atan2, sqrt).x <= 1.0 && 0.0 <= UV(s, p, atan2, sqrt).y <= 1.0
  {
    var q := Sub(p, s.center);
    var len := Length(V3(q.x, 0.0, q.z), sqrt);
    assert -N.Pi <= atan2(q.z, q.x) <= N.Pi;
    assert len >= 0.0;
    assert -N.Pi / 2.0 <= atan2(q.y, len) <= N.Pi / 2.0;
  }

  function MaterialAt(s: Sphere, p: Vector): M.Material {
    s.material
  }

  /** `NormalAt(p)`: the unit vector from the centre towards `p`. At the centre the source
      normalises the zero vector (NaN); that point is excluded. */
  function NormalAt(s: Sphere, p: Vector, sqrt: real -> real): (n: Vector)
    requires N.IsSqrt(sqrt) && LengthSquared(Sub(p, s.center)) > 0.0
    ensures LengthSquared(n) == 1.0
    ensures Dot(n, Sub(p, s.center)) > 0.0
  {
    var v := Sub(p, s.center);
    var n := Normalize(v, sqrt);
    var k :| k > 0.0 && n == MulScalar(v, k);
    assert Dot(n, v) == k * LengthSquared(v);
    N.MulPos(k, LengthSquared(v));
    n
  }
}
