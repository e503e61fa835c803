/** Axis-aligned cubes (Cube.cs). */
module Cubes {
  import N = Numeric
  import opened Vectors
  import R = Rays
  import B = Boxes
  import M = Materials
  import H = Hits
  import T = Triangles

  datatype Cube = Cube(min: Vector, max: Vector, material: M.Material, box: B.Box)

  /** `NewCube`: the box is built once from the two corners. */
  function NewCube(min: Vector, max: Vector, material: M.Material): (c: Cube)
    ensures c.min == min && c.max == max && c.material == material
    ensures c.box == B.NewBox(min, max)
  {
    Cube(min, max, material, B.NewBox(min, max))
  }

  /** `BoundingBox()`: the box built at construction. */
  function BoundingBox(c: Cube): (b: B.Box)
    ensures b == c.box
  {
    c.box
  }

  /** A cube as `NewCube` builds it: its box has its corners, the lower one not above the
      upper one on any axis. */
  predicate Valid(c: Cube) {
    c.box == B.NewBox(c.min, c.max) && LessEq(c.min, c.max)
  }

  /** One axis of `Intersect`: the distances `(lo - o) / d` and `(hi - o) / d`, ordered with
      Math.Min and Math.Max, so that a NaN (a zero direction along the plane of a face)
      makes both NaN. */
  function AxisSlab(lo: real, hi: real, o: real, d: real): (s: (N.Float, N.Float)) {
    var n := N.Div(lo - o, d);
    var f := N.Div(hi - o, d);
    (N.FMin(n, f), N.FMax(n, f))
  }

  /** The largest near distance and the smallest far distance of the three axes. */
  function Interval(c: Cube, r: R.Ray): (t: (N.Float, N.Float)) {
    var x := AxisSlab(c.min.x, c.max.x, r.origin.x, r.direction.x);
    var y := AxisSlab(c.min.y, c.max.y, r.origin.y, r.direction.y);
    var z := AxisSlab(c.min.z, c.max.z, r.origin.z, r.direction.z);
    (N.FMax(N.FMax(x.0, y.0), z.0), N.FMin(N.FMin(x.1, y.1), z.1))
  }

  /** `Intersect(r)`: the entry distance `t0` when `0 < t0 < t1`; every comparison with NaN
      is false, so a NaN interval misses. */
  function Intersect(c: Cube, r: R.Ray): (h: H.Hit<Cube>)
    ensures h == H.NoHit() || (h.shape == N.Some(c) && h.t > 0.0 && h.info.None?)
    ensures h != H.NoHit() <==> N.Less(N.Num(0.0), Interval(c, r).0) && N.Less(Interval(c, r).0, Interval(c, r).1)
  {
    var (t0, t1) := Interval(c, r);
    if N.Less(N.Num(0.0), t0) && N.Less(t0, t1) then H.Hit(N.Some(c), t0.v, N.None)
    else H.NoHit()
  }

  /** Along one axis, the slab's ordered interval bounds the ray's points inside the slab. */
  lemma AxisInside(lo: real, hi: real, o: real, d: real, t: real)
    requires lo <= hi
    requires N.LessEq(AxisSlab(lo, hi, o, d).0, N.Num(t)) && N.Less(N.Num(t), AxisSlab(lo, hi, o, d).1)
    ensures lo <= o + d * t <= hi
  {
    B.SlabOrder(lo, hi, o, d);
    if d > 0.0 {
      MulBound(lo - o, d, t);
      MulBound(hi - o, d, t);
    } else if d < 0.0 {
      MulBound(o - lo, -d, t);
      MulBound(o - hi, -d, t);
      assert (o - lo) / -d == (lo - o) / d;
      assert (o - hi) / -d == (hi - o) / d;
    } else {
      var s := AxisSlab(lo, hi, o, d);
      assert s.0 == N.NegInf;
      assert s.1 == N.PosInf;
      assert lo < o < hi;
    }
  }

  /** Multiplying a bound on `a / d` by a positive `d`. */
  lemma MulBound(a: real, d: real, t: real)
    requires d > 0.0
    ensures a / d <= t ==> a <= d * t
    ensures t <= a / d ==> d * t <= a
  {
    var q := a / d;
    assert q * d == a;
    if q <= t {
      assert (t - q) * d >= 0.0 by { if t > q { N.MulPos(t - q, d); } }
    }
    if t <= q {
      assert (q - t) * d >= 0.0 by { if q > t { N.MulPos(q - t, d); } }
    }
  }

  /** The entry distance is not before any axis's near distance, and the exit distance is
      not after any axis's far distance, unless they are NaN. */
  lemma IntervalBounds(x: (N.Float, N.Float), y: (N.Float, N.Float), z: (N.Float, N.Float))
    ensures var t0 := N.FMax(N.FMax(x.0, y.0), z.0);
      !t0.NaN? ==> N.LessEq(x.0, t0) && N.LessEq(y.0, t0) && N.LessEq(z.0, t0)
    ensures var t1 := N.FMin(N.FMin(x.1, y.1), z.1);
      !t1.NaN? ==> N.LessEq(t1, x.1) && N.LessEq(t1, y.1) && N.LessEq(t1, z.1)
  {
    var m := N.FMax(x.0, y.0);
    N.LessTransitive(x.0, m, N.FMax(m, z.0));
    N.LessTransitive(y.0, m, N.FMax(m, z.0));
    var n := N.FMin(x.1, y.1);
    N.LessTransitive(N.FMin(n, z.1), n, x.1);
    N.LessTransitive(N.FMin(n, z.1), n, y.1);
  }

  /** A hit's distance `t` lies in one axis's slab when it is not before the near distance
      and before the exit distance, which is not after the far one. */
  lemma AxisHit(lo: real, hi: real, o: real, d: real, t: real, t1: N.Float)
    requires lo <= hi
    requires N.LessEq(AxisSlab(lo, hi, o, d).0, N.Num(t))
    requires N.Less(N.Num(t), t1) && N.LessEq(t1, AxisSlab(lo, hi, o, d).1)
    ensures InAxis(lo, hi, o, d, t)
  {
    N.LessTransitive(N.Num(t), t1, AxisSlab(lo, hi, o, d).1);
    AxisInside(lo, hi, o, d, t);
  }

  /** A distance within every axis's slab, as `IntervalBounds` gives for a hit, reaches a
      point of the box. */
  lemma BoxHit(c: Cube, r: R.Ray, t: real, t1: N.Float)
    requires Valid(c)
    requires N.LessEq(AxisSlab(c.min.x, c.max.x, r.origin.x, r.direction.x).0, N.Num(t))
    requires N.LessEq(AxisSlab(c.min.y, c.max.y, r.origin.y, r.direction.y).0, N.Num(t))
    requires N.LessEq(AxisSlab(c.min.z, c.max.z, r.origin.z, r.direction.z).0, N.Num(t))
    requires N.Less(N.Num(t), t1)
    requires N.LessEq(t1, AxisSlab(c.min.x, c.max.x, r.origin.x, r.direction.x).1)
    requires N.LessEq(t1, AxisSlab(c.min.y, c.max.y, r.origin.y, r.direction.y).1)
    requires N.LessEq(t1, AxisSlab(c.min.z, c.max.z, r.origin.z, r.direction.z).1)
    ensures B.Contains(c.box, R.Position(r, t))
  {
    AxisHit(c.min.x, c.max.x, r.origin.x, r.direction.x, t, t1);
    AxisHit(c.min.y, c.max.y, r.origin.y, r.direction.y, t, t1);
    AxisHit(c.min.z, c.max.z, r.origin.z, r.direction.z, t, t1);
    ContainsPosition(c.min, c.max, r, t);
  }

  /** The ray's coordinate `o + d t` along one axis lies between that axis's faces. */
  predicate InAxis(lo: real, hi: real, o: real, d: real, t: real) {
    lo <= o + d * t <= hi
  }

  lemma ContainsPosition(a: Vector, b: Vector, r: R.Ray, t: real)
    requires InAxis(a.x, b.x, r.origin.x, r.direction.x, t)
    requires InAxis(a.y, b.y, r.origin.y, r.direction.y, t)
    requires InAxis(a.z, b.z, r.origin.z, r.direction.z, t)
    ensures B.Contains(B.NewBox(a, b), R.Position(r, t))
  {
  }

  /** Every hit of a valid cube lies in its box, at a positive distance. */
  lemma IntersectInside(c: Cube, r: R.Ray)
    requires Valid(c)
    ensures var h := Intersect(c, r); h != H.NoHit() ==> h.t > 0.0 && B.Contains(c.box, R.Position(r, h.t))
  {
    var h := Intersect(c, r);
    if h != H.NoHit() {
      var x := AxisSlab(c.min.x, c.max.x, r.origin.x, r.direction.x);
      var y := AxisSlab(c.min.y, c.max.y, r.origin.y, r.direction.y);
      var z := AxisSlab(c.min.z, c.max.z, r.origin.z, r.direction.z);
      IntervalBounds(x, y, z);
      BoxHit(c, r, h.t, Interval(c, r).1);
    }
  }

  /** Along one axis, a point of the ray inside the slab is not before the near distance. */
  lemma AxisNear(lo: real, hi: real, o: real, d: real, t: real)
    requires lo <= o + d * t <= hi
    ensures !N.Less(N.Num(t), AxisSlab(lo, hi, o, d).0)
  {
    if d > 0.0 {
      B.DivLe(lo - o, t, d);
    } else if d < 0.0 {
      B.DivLe(o - hi, t, -d);
      assert (o - hi) / -d == (hi - o) / d;
    }
  }

  /** The hit is the nearest point of the cube: no point of the ray in the box at a
      positive distance comes before it. */
  lemma IntersectNearest(c: Cube, r: R.Ray, t: real)
    requires Valid(c) && B.Contains(c.box, R.Position(r, t))
    ensures var h := Intersect(c, r); h != H.NoHit() ==> h.t <= t
  {
    NearAxes(c, r, t);
    NearInterval(AxisSlab(c.min.x, c.max.x, r.origin.x, r.direction.x),
                 AxisSlab(c.min.y, c.max.y, r.origin.y, r.direction.y),
                 AxisSlab(c.min.z, c.max.z, r.origin.z, r.direction.z), t);
  }

  /** A point of the ray in the box is not before any axis's near distance. */
  lemma NearAxes(c: Cube, r: R.Ray, t: real)
    requires Valid(c) && B.Contains(c.box, R.Position(r, t))
    ensures !N.Less(N.Num(t), AxisSlab(c.min.x, c.max.x, r.origin.x, r.direction.x).0)
    ensures !N.Less(N.Num(t), AxisSlab(c.min.y, c.max.y, r.origin.y, r.direction.y).0)
    ensures !N.Less(N.Num(t), AxisSlab(c.min.z, c.max.z, r.origin.z, r.direction.z).0)
  {
    AxisNearAll(c.min.x, c.max.x, r.origin.x, r.direction.x,
                c.min.y, c.max.y, r.origin.y, r.direction.y,
                c.min.z, c.max.z, r.origin.z, r.direction.z, t);
  }

  /** `AxisNear` for the three axes at once. */
  lemma AxisNearAll(lx: real, hx: real, ox: real, dx: real, ly: real, hy: real, oy: real, dy: real,
                    lz: real, hz: real, oz: real, dz: real, t: real)
    requires InAxis(lx, hx, ox, dx, t) && InAxis(ly, hy, oy, dy, t) && InAxis(lz, hz, oz, dz, t)
    ensures !N.Less(N.Num(t), AxisSlab(lx, hx, ox, dx).0)
    ensures !N.Less(N.Num(t), AxisSlab(ly, hy, oy, dy).0)
    ensures !N.Less(N.Num(t), AxisSlab(lz, hz, oz, dz).0)
  {
    AxisNear(lx, hx, ox, dx, t);
    AxisNear(ly, hy, oy, dy, t);
    AxisNear(lz, hz, oz, dz, t);
  }

  /** A distance not before any axis's near distance is not before the entry distance. */
  lemma NearInterval(x: (N.Float, N.Float), y: (N.Float, N.Float), z: (N.Float, N.Float), t: real)
    requires !N.Less(N.Num(t), x.0) && !N.Less(N.Num(t), y.0) && !N.Less(N.Num(t), z.0)
    ensures !N.Less(N.Num(t), N.FMax(N.FMax(x.0, y.0), z.0))
  {
  }

  /** Along one axis, a point strictly inside the slab lies strictly between its finite or
      infinite distances; if the origin is outside the slab, the near distance is positive. */
  lemma AxisStrict(lo: real, hi: real, o: real, d: real, t: real)
    requires StrictAxis(lo, hi, o, d, t)
    ensures var s := AxisSlab(lo, hi, o, d); N.Less(s.0, N.Num(t)) && N.Less(N.Num(t), s.1)
    ensures t > 0.0 && (o < lo || o > hi) ==> N.Less(N.Num(0.0), AxisSlab(lo, hi, o, d).0)
  {
    if d > 0.0 {
      B.SlabOrder(lo, hi, o, d);
      StrictBound(lo - o, d, t);
      StrictBound(hi - o, d, t);
      if o < lo {
        assert (lo - o) / d > 0.0;
      }
    } else if d < 0.0 {
      B.SlabOrder(lo, hi, o, d);
      StrictBound(o - lo, -d, t);
      StrictBound(o - hi, -d, t);
      assert (o - lo) / -d == (lo - o) / d;
      assert (o - hi) / -d == (hi - o) / d;
      if o > hi {
        assert (hi - o) / d > 0.0;
      }
    }
  }

  /** Strict bounds survive dividing by a positive `d`. */
  lemma StrictBound(a: real, d: real, t: real)
    requires d > 0.0
    ensures a < d * t ==> a / d < t
    ensures d * t < a ==> t < a / d
  {
    var q := a / d;
    assert q * d == a;
    if a < d * t {
      assert (t - q) * d > 0.0;
      PositiveFactor(t - q, d);
    }
    if d * t < a {
      assert (q - t) * d > 0.0;
      PositiveFactor(q - t, d);
    }
  }

  lemma PositiveFactor(x: real, d: real)
    requires d > 0.0 && x * d > 0.0
    ensures x > 0.0
  {
    assert x == (x * d) / d;
  }

  /** A ray from outside the box that passes through its interior hits the cube. */
  lemma IntersectFinds(c: Cube, r: R.Ray, t: real)
    requires t > 0.0 && !B.Contains(c.box, r.origin) && c.box == B.NewBox(c.min, c.max)
    requires var p := R.Position(r, t);
      c.min.x < p.x < c.max.x && c.min.y < p.y < c.max.y && c.min.z < p.z < c.max.z
    ensures Intersect(c, r) != H.NoHit()
  {
    StrictPosition(c.min, c.max, r, t);
    AxisStrict(c.min.x, c.max.x, r.origin.x, r.direction.x, t);
    AxisStrict(c.min.y, c.max.y, r.origin.y, r.direction.y, t);
    AxisStrict(c.min.z, c.max.z, r.origin.z, r.direction.z, t);
    IntervalStrict(AxisSlab(c.min.x, c.max.x, r.origin.x, r.direction.x),
                   AxisSlab(c.min.y, c.max.y, r.origin.y, r.direction.y),
                   AxisSlab(c.min.z, c.max.z, r.origin.z, r.direction.z), t);
  }

  /** The ray's coordinate `o + d t` along one axis lies strictly between that axis's faces. */
  predicate StrictAxis(lo: real, hi: real, o: real, d: real, t: real) {
    lo < o + d * t < hi
  }

  lemma StrictPosition(a: Vector, b: Vector, r: R.Ray, t: real)
    requires var p := R.Position(r, t); a.x < p.x < b.x && a.y < p.y < b.y && a.z < p.z < b.z
    ensures StrictAxis(a.x, b.x, r.origin.x, r.direction.x, t)
    ensures StrictAxis(a.y, b.y, r.origin.y, r.direction.y, t)
    ensures StrictAxis(a.z, b.z, r.origin.z, r.direction.z, t)
  {
  }

  /** When `t` lies strictly inside every axis's interval, the entry distance is before
      the exit distance, and it is positive when one of the near distances is. */
  lemma IntervalStrict(x: (N.Float, N.Float), y: (N.Float, N.Float), z: (N.Float, N.Float), t: real)
    requires N.Less(x.0, N.Num(t)) && N.Less(N.Num(t), x.1)
    requires N.Less(y.0, N.Num(t)) && N.Less(N.Num(t), y.1)
    requires N.Less(z.0, N.Num(t)) && N.Less(N.Num(t), z.1)
    ensures N.Less(N.FMax(N.FMax(x.0, y.0), z.0), N.FMin(N.FMin(x.1, y.1), z.1))
    ensures N.Less(N.Num(0.0), x.0) || N.Less(N.Num(0.0), y.0) || N.Less(N.Num(0.0), z.0) ==>
      N.Less(N.Num(0.0), N.FMax(N.FMax(x.0, y.0), z.0))
  {
    IntervalBounds(x, y, z);
    var t0 := N.FMax(N.FMax(x.0, y.0), z.0);
    var t1 := N.FMin(N.FMin(x.1, y.1), z.1);
    assert N.Less(t0, N.Num(t));
    assert N.Less(N.Num(t), t1);
    N.LessTransitive(t0, N.Num(t), t1);
    N.LessTransitive(N.Num(0.0), x.0, t0);
    N.LessTransitive(N.Num(0.0), y.0, t0);
    N.LessTransitive(N.Num(0.0), z.0, t0);
  }

  /** `UV(p)`: the `x` and `z` of `p`'s position relative to the corners, as fractions of
      the cube's extent; the `y` quotient is computed and dropped, so only a cube flat in
      `x` or `z` divides by zero, and that one is excluded. */
  function UV(c: Cube, p: Vector): (uv: Vector)
    requires c.max.x != c.min.x && c.max.z != c.min.z
    ensures uv.z == 0.0
    ensures c.min.x + uv.x * (c.max.x - c.min.x) == p.x
    ensures c.min.z + uv.y * (c.max.z - c.min.z) == p.z
  {
    V3((p.x - c.min.x) / (c.max.x - c.min.x), (p.z - c.min.z) / (c.max.z - c.min.z), 0.0)
  }

  /** Texture coordinates of points in the box lie in the unit square, from (0, 0) at the
      lower corner to (1, 1) at the upper one. */
  lemma UVRange(c: Cube, p: Vector)
    requires c.min.x < c.max.x && c.min.y <= c.max.y && c.min.z < c.max.z
    ensures B.Contains(B.NewBox(c.min, c.max), p) ==>
      0.0 <= UV(c, p).x <= 1.0 && 0.0 <= UV(c, p).y <= 1.0
    ensures UV(c, c.min) == V3(0.0, 0.0, 0.0) && UV(c, c.max) == V3(1.0, 1.0, 0.0)
  {
    if B.Contains(B.NewBox(c.min, c.max), p) {
      B.LeDiv(0.0, p.x - c.min.x, c.max.x - c.min.x);
      B.DivLe(p.x - c.min.x, 1.0, c.max.x - c.min.x);
      B.LeDiv(0.0, p.z - c.min.z, c.max.z - c.min.z);
      B.DivLe(p.z - c.min.z, 1.0, c.max.z - c.min.z);
    }
    N.SelfDivision(c.max.x - c.min.x);
    N.SelfDivision(c.max.z - c.min.z);
  }

  function MaterialAt(c: Cube, p: Vector): (m: M.Material)
    ensures m == c.material
  {
    c.material
  }

  /** `NormalAt(p)`: the outward normal of the first face, in the order -x, +x, -y, +y,
      -z, +z, that `p` is within `EPS` of; (0, 1, 0) when there is none. */
  function NormalAt(c: Cube, p: Vector): (n: Vector)
    ensures n == V3(-1.0, 0.0, 0.0) ==> p.x < c.min.x + N.EPS
    ensures n == V3(1.0, 0.0, 0.0) ==> p.x > c.max.x - N.EPS
    ensures n == V3(0.0, -1.0, 0.0) ==> p.y < c.min.y + N.EPS
    ensures n == V3(0.0, 0.0, -1.0) ==> p.z < c.min.z + N.EPS
    ensures n == V3(0.0, 0.0, 1.0) ==> p.z > c.max.z - N.EPS
  {
    if p.x < c.min.x + N.EPS then V3(-1.0, 0.0, 0.0)
    else if p.x > c.max.x - N.EPS then V3(1.0, 0.0, 0.0)
    else if p.y < c.min.y + N.EPS then V3(0.0, -1.0, 0.0)
    else if p.y > c.max.y - N.EPS then V3(0.0, 1.0, 0.0)
    else if p.z < c.min.z + N.EPS then V3(0.0, 0.0, -1.0)
    else if p.z > c.max.z - N.EPS then V3(0.0, 0.0, 1.0)
    else V3(0.0, 1.0, 0.0)
  }

  /** The normal is one of the six unit axis directions. */
  lemma NormalAtUnit(c: Cube, p: Vector)
    ensures LengthSquared(NormalAt(c, p)) == 1.0
  {
    var n := NormalAt(c, p);
    assert n == V3(-1.0, 0.0, 0.0) || n == V3(1.0, 0.0, 0.0) || n == V3(0.0, -1.0, 0.0) ||
           n == V3(0.0, 1.0, 0.0) || n == V3(0.0, 0.0, -1.0) || n == V3(0.0, 0.0, 1.0);
  }

  /** `p`'s coordinate along an axis is at least `EPS` from both faces of that axis. */
  predicate Away(lo: real, hi: real, v: real) {
    lo + N.EPS <= v <= hi - N.EPS
  }

  /** On each face, away from the edges by `EPS`, the normal is that face's outward one. */
  lemma NormalOnFaces(c: Cube, p: Vector)
    ensures p.x == c.min.x ==> NormalAt(c, p) == V3(-1.0, 0.0, 0.0)
    ensures p.x == c.max.x && c.min.x + N.EPS <= p.x ==> NormalAt(c, p) == V3(1.0, 0.0, 0.0)
    ensures p.y == c.min.y && Away(c.min.x, c.max.x, p.x) ==> NormalAt(c, p) == V3(0.0, -1.0, 0.0)
    ensures p.y == c.max.y && c.min.y + N.EPS <= p.y && Away(c.min.x, c.max.x, p.x)
      ==> NormalAt(c, p) == V3(0.0, 1.0, 0.0)
    ensures p.z == c.min.z && Away(c.min.x, c.max.x, p.x) && Away(c.min.y, c.max.y, p.y)
      ==> NormalAt(c, p) == V3(0.0, 0.0, -1.0)
    ensures p.z == c.max.z && c.min.z + N.EPS <= p.z && Away(c.min.x, c.max.x, p.x) && Away(c.min.y, c.max.y, p.y)
      ==> NormalAt(c, p) == V3(0.0, 0.0, 1.0)
  {
  }

  /** `p` is one of the eight corners of the cube. */
  predicate Corner(c: Cube, p: Vector) {
    (p.x == c.min.x || p.x == c.max.x) && (p.y == c.min.y || p.y == c.max.y) &&
    (p.z == c.min.z || p.z == c.max.z) && p.w == 1.0
  }

  /** `CubeMesh()`: the twelve triangles, two per face, over the eight corners, with the
      cube's material and zero texture coordinates; each gets its face normal. Inverted
      corners are allowed; a flat cube would give degenerate triangles (NaN normals) and
      is excluded. */
  method CubeMesh(c: Cube, sqrt: real -> real) returns (ts: seq<T.Triangle>)
    requires N.IsSqrt(sqrt)
    requires c.min.x != c.max.x && c.min.y != c.max.y && c.min.z != c.max.z
    ensures |ts| == 12
    ensures forall i :: 0 <= i < |ts| ==> fresh(ts[i])
    ensures forall i :: 0 <= i < |ts| ==>
      Corner(c, ts[i].v1) && Corner(c, ts[i].v2) && Corner(c, ts[i].v3) &&
      ts[i].material == c.material && ts[i].t1 == Zero && ts[i].t2 == Zero && ts[i].t3 == Zero &&
      T.NonDegenerate(ts[i].v1, ts[i].v2, ts[i].v3) &&
      ts[i].n1 == T.FaceNormal(ts[i].v1, ts[i].v2, ts[i].v3, sqrt) &&
      ts[i].n2 == ts[i].n1 && ts[i].n3 == ts[i].n1
  {
    var a := c.min;
    var b := c.max;
    var z := Zero;
    var m := c.material;
    var v000 := V3(a.x, a.y, a.z);
    var v001 := V3(a.x, a.y, b.z);
    var v010 := V3(a.x, b.y, a.z);
    var v011 := V3(a.x, b.y, b.z);
    var v100 := V3(b.x, a.y, a.z);
    var v101 := V3(b.x, a.y, b.z);
    var v110 := V3(b.x, b.y, a.z);
    var v111 := V3(b.x, b.y, b.z);
    ZFaces(a, b);
    YFaces(a, b);
    XFaces(a, b);
    var t0 := new T.Triangle.NewTriangle(v000, v100, v110, z, z, z, m, sqrt);
    var t1 := new T.Triangle.NewTriangle(v000, v110, v010, z, z, z, m, sqrt);
    var t2 := new T.Triangle.NewTriangle(v001, v101, v111, z, z, z, m, sqrt);
    var t3 := new T.Triangle.NewTriangle(v001, v111, v011, z, z, z, m, sqrt);
    var t4 := new T.Triangle.NewTriangle(v000, v100, v101, z, z, z, m, sqrt);
    var t5 := new T.Triangle.NewTriangle(v000, v101, v001, z, z, z, m, sqrt);
    var t6 := new T.Triangle.NewTriangle(v010, v110, v111, z, z, z, m, sqrt);
    var t7 := new T.Triangle.NewTriangle(v010, v111, v011, z, z, z, m, sqrt);
    var t8 := new T.Triangle.NewTriangle(v000, v010, v011, z, z, z, m, sqrt);
    var t9 := new T.Triangle.NewTriangle(v000, v011, v001, z, z, z, m, sqrt);
    var t10 := new T.Triangle.NewTriangle(v100, v110, v111, z, z, z, m, sqrt);
    var t11 := new T.Triangle.NewTriangle(v100, v111, v101, z, z, z, m, sqrt);
    ts := [t0, t1, t2, t3, t4, t5, t6, t7, t8, t9, t10, t11];
  }

  /** The four triangles of the two faces normal to `z` are not degenerate. */
  lemma ZFaces(a: Vector, b: Vector)
    requires a.x != b.x && a.y != b.y && a.z != b.z
    ensures T.NonDegenerate(V3(a.x, a.y, a.z), V3(b.x, a.y, a.z), V3(b.x, b.y, a.z))
    ensures T.NonDegenerate(V3(a.x, a.y, a.z), V3(b.x, b.y, a.z), V3(a.x, b.y, a.z))
    ensures T.NonDegenerate(V3(a.x, a.y, b.z), V3(b.x, a.y, b.z), V3(b.x, b.y, b.z))
    ensures T.NonDegenerate(V3(a.x, a.y, b.z), V3(b.x, b.y, b.z), V3(a.x, b.y, b.z))
  {
    N.MulNonZero(b.x - a.x, b.y - a.y);
    CrossZ(V3(a.x, a.y, a.z), V3(b.x, a.y, a.z), V3(b.x, b.y, a.z));
    CrossZ(V3(a.x, a.y, a.z), V3(b.x, b.y, a.z), V3(a.x, b.y, a.z));
    CrossZ(V3(a.x, a.y, b.z), V3(b.x, a.y, b.z), V3(b.x, b.y, b.z));
    CrossZ(V3(a.x, a.y, b.z), V3(b.x, b.y, b.z), V3(a.x, b.y, b.z));
  }

  /** ... nor are those of the faces normal to `y` ... */
  lemma YFaces(a: Vector, b: Vector)
    requires a.x != b.x && a.y != b.y && a.z != b.z
    ensures T.NonDegenerate(V3(a.x, a.y, a.z), V3(b.x, a.y, a.z), V3(b.x, a.y, b.z))
    ensures T.NonDegenerate(V3(a.x, a.y, a.z), V3(b.x, a.y, b.z), V3(a.x, a.y, b.z))
    ensures T.NonDegenerate(V3(a.x, b.y, a.z), V3(b.x, b.y, a.z), V3(b.x, b.y, b.z))
    ensures T.NonDegenerate(V3(a.x, b.y, a.z), V3(b.x, b.y, b.z), V3(a.x, b.y, b.z))
  {
    N.MulNonZero(b.x - a.x, b.z - a.z);
    CrossY(V3(a.x, a.y, a.z), V3(b.x, a.y, a.z), V3(b.x, a.y, b.z));
    CrossY(V3(a.x, a.y, a.z), V3(b.x, a.y, b.z), V3(a.x, a.y, b.z));
    CrossY(V3(a.x, b.y, a.z), V3(b.x, b.y, a.z), V3(b.x, b.y, b.z));
    CrossY(V3(a.x, b.y, a.z), V3(b.x, b.y, b.z), V3(a.x, b.y, b.z));
  }

  /** ... nor those of the faces normal to `x`. */
  lemma XFaces(a: Vector, b: Vector)
    requires a.x != b.x && a.y != b.y && a.z != b.z
    ensures T.NonDegenerate(V3(a.x, a.y, a.z), V3(a.x, b.y, a.z), V3(a.x, b.y, b.z))
    ensures T.NonDegenerate(V3(a.x, a.y, a.z), V3(a.x, b.y, b.z), V3(a.x, a.y, b.z))
    ensures T.NonDegenerate(V3(b.x, a.y, a.z), V3(b.x, b.y, a.z), V3(b.x, b.y, b.z))
    ensures T.NonDegenerate(V3(b.x, a.y, a.z), V3(b.x, b.y, b.z), V3(b.x, a.y, b.z))
  {
    N.MulNonZero(b.y - a.y, b.z - a.z);
    CrossX(V3(a.x, a.y, a.z), V3(a.x, b.y, a.z), V3(a.x, b.y, b.z));
    CrossX(V3(a.x, a.y, a.z), V3(a.x, b.y, b.z), V3(a.x, a.y, b.z));
    CrossX(V3(b.x, a.y, a.z), V3(b.x, b.y, a.z), V3(b.x, b.y, b.z));
    CrossX(V3(b.x, a.y, a.z), V3(b.x, b.y, b.z), V3(b.x, a.y, b.z));
  }

  /** A triangle whose face cross product has a non-zero `z` is not degenerate. */
  lemma CrossZ(v1: Vector, v2: Vector, v3: Vector)
    ensures (v2.x - v1.x) * (v3.y - v1.y) - (v2.y - v1.y) * (v3.x - v1.x) != 0.0 ==> T.NonDegenerate(v1, v2, v3)
  {
    if (v2.x - v1.x) * (v3.y - v1.y) - (v2.y - v1.y) * (v3.x - v1.x) != 0.0 {
      LengthSquaredPositive(T.FaceCross(v1, v2, v3));
    }
  }

  /** ... one with a non-zero `y` ... */
  lemma CrossY(v1: Vector, v2: Vector, v3: Vector)
    ensures (v2.z - v1.z) * (v3.x - v1.x) - (v2.x - v1.x) * (v3.z - v1.z) != 0.0 ==> T.NonDegenerate(v1, v2, v3)
  {
    if (v2.z - v1.z) * (v3.x - v1.x) - (v2.x - v1.x) * (v3.z - v1.z) != 0.0 {
      LengthSquaredPositive(T.FaceCross(v1, v2, v3));
    }
  }

  /** ... and one with a non-zero `x`. */
  lemma CrossX(v1: Vector, v2: Vector, v3: Vector)
    ensures (v2.y - v1.y) * (v3.z - v1.z) - (v2.z - v1.z) * (v3.y - v1.y) != 0.0 ==> T.NonDegenerate(v1, v2, v3)
  {
    if (v2.y - v1.y) * (v3.z - v1.z) - (v2.z - v1.z) * (v3.y - v1.y) != 0.0 {
      LengthSquaredPositive(T.FaceCross(v1, v2, v3));
    }
  }
}
