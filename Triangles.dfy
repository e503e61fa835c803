/** Triangles (Triangle.cs) and `Box.BoxForTriangles`.

    A triangle is an object: `FixNormals` updates its vertex normals in place, so it is a
    class whose fields are the source's `V1..V3`, `N1..N3`, `T1..T3` and `Material`. */
module Triangles {
  import N = Numeric
  import opened Vectors
  import R = Rays
  import B = Boxes
  import M = Materials
  import H = Hits

  /** `(V2 - V1) x (V3 - V1)`, the face normal before normalising. */
  function FaceCross(v1: Vector, v2: Vector, v3: Vector): Vector {
    Cross(Sub(v2, v1), Sub(v3, v1))
  }

  /** The vertices span a plane. For any other triangle the source normalises the zero
      vector (NaN), so the members that need the face normal require this. */
  predicate NonDegenerate(v1: Vector, v2: Vector, v3: Vector) {
    LengthSquared(FaceCross(v1, v2, v3)) > 0.0
  }

  /** The point `v1 + u (v2 - v1) + v (v3 - v1)`. */
  function Combination(v1: Vector, v2: Vector, v3: Vector, u: real, v: real): Vector {
    Add(Add(v1, MulScalar(Sub(v2, v1), u)), MulScalar(Sub(v3, v1), v))
  }

  /** `p` lies on the closed triangle, at the barycentric parameters `u`, `v`. */
  predicate OnTriangle(p: Vector, v1: Vector, v2: Vector, v3: Vector, u: real, v: real) {
    0.0 <= u && 0.0 <= v && u + v <= 1.0 && p == Combination(v1, v2, v3, u, v)
  }

  /** The determinant `Barycentric` divides by: the Gram determinant of the two edges. */
  function GramDeterminant(v1: Vector, v2: Vector, v3: Vector): real {
    Gram(Sub(v2, v1), Sub(v3, v1))
  }

  function Gram(e1: Vector, e2: Vector): real {
    Dot(e1, e1) * Dot(e2, e2) - Dot(e1, e2) * Dot(e1, e2)
  }

  /** Lagrange's identity: the Gram determinant is the squared length of the face cross
      product, so it is non-zero exactly for a non-degenerate triangle. */
  lemma GramIsCross(v1: Vector, v2: Vector, v3: Vector)
    ensures GramDeterminant(v1, v2, v3) == LengthSquared(FaceCross(v1, v2, v3))
    ensures NonDegenerate(v1, v2, v3) <==> GramDeterminant(v1, v2, v3) != 0.0
  {
    GramCross(Sub(v2, v1), Sub(v3, v1));
  }

  /** Lagrange's identity on vectors. */
  lemma GramCross(e1: Vector, e2: Vector)
    ensures Gram(e1, e2) == LengthSquared(Cross(e1, e2))
  {
    Lagrange(e1.x, e1.y, e1.z, e2.x, e2.y, e2.z);
  }

  /** Lagrange's identity on components. */
  lemma Lagrange(a: real, b: real, c: real, x: real, y: real, z: real)
    ensures (a * a + b * b + c * c) * (x * x + y * y + z * z) - (a * x + b * y + c * z) * (a * x + b * y + c * z) ==
      N.Sq(b * z - c * y) + N.Sq(c * x - a * z) + N.Sq(a * y - b * x)
  {
  }

  class Triangle {
    var material: M.Material
    var v1: Vector
    var v2: Vector
    var v3: Vector
    var n1: Vector
    var n2: Vector
    var n3: Vector
    var t1: Vector
    var t2: Vector
    var t3: Vector

    /** `NewTriangle`: the vertices, texture coordinates and material are stored, the
        normals start as the zero vector of `new Triangle()`, and `FixNormals` then gives
        all three the face normal. */
    constructor NewTriangle(v1: Vector, v2: Vector, v3: Vector, t1: Vector, t2: Vector, t3: Vector,
                            material: M.Material, sqrt: real -> real)
      requires N.IsSqrt(sqrt) && NonDegenerate(v1, v2, v3)
      ensures this.v1 == v1 && this.v2 == v2 && this.v3 == v3
      ensures this.t1 == t1 && this.t2 == t2 && this.t3 == t3
      ensures this.material == material
      ensures n1 == FaceNormal(v1, v2, v3, sqrt) && n2 == n1 && n3 == n1
    {
      this.v1 := v1;
      this.v2 := v2;
      this.v3 := v3;
      this.t1 := t1;
      this.t2 := t2;
      this.t3 := t3;
      this.material := material;
      n1 := Zero;
      n2 := Zero;
      n3 := Zero;
      new;
      FixNormals(sqrt);
    }

    /** `BoundingBox()`: the componentwise minimum and maximum of the vertices, the
        smallest box holding all three. */
    function BoundingBox(): (b: B.Box)
      reads this
      ensures B.WellFormed(b) && !b.left && !b.right
      ensures B.Contains(b, v1) && B.Contains(b, v2) && B.Contains(b, v3)
      ensures forall c: B.Box :: B.Contains(c, v1) && B.Contains(c, v2) && B.Contains(c, v3) ==>
        B.Encloses(c, b)
    {
      B.NewBox(Vectors.Min(Vectors.Min(v1, v2), v3), Vectors.Max(Vectors.Max(v1, v2), v3))
    }

    /** `Intersect(r)`, the Möller-Trumbore test: a determinant within `EPS` of zero (a
        ray parallel to the plane, or a degenerate triangle) misses, so do barycentric
        parameters outside the triangle and a distance below `EPS`. */
    function Intersect(r: R.Ray): (h: H.Hit<Triangle>)
      reads this
      ensures h == H.NoHit() || (h.shape == N.Some(this) && h.t >= N.EPS && h.info.None?)
    {
      var e1 := Sub(v2, v1);
      var e2 := Sub(v3, v1);
      var p := Cross(r.direction, e2);
      var t := Sub(r.origin, v1);
      var q := Cross(t, e1);
      Accept(this, Dot(e1, p), Dot(t, p), Dot(r.direction, q), Dot(e2, q))
    }

    /** Every hit lies on the triangle: the ray reaches, at the returned distance, the
        point with the barycentric parameters `u`, `v` the test accepted. */
    lemma IntersectOnTriangle(r: R.Ray)
      ensures var h := Intersect(r);
        h != H.NoHit() ==> exists u: real, v: real :: OnTriangle(R.Position(r, h.t), v1, v2, v3, u, v)
    {
      var h := Intersect(r);
      if h != H.NoHit() {
        var e1 := Sub(v2, v1);
        var e2 := Sub(v3, v1);
        var t := Sub(r.origin, v1);
        AcceptedSpan(this, e1, e2, r.direction, t, h);
        var u, v :| 0.0 <= u && 0.0 <= v && u + v <= 1.0 && t == Span(e1, e2, r.direction, u, v, h.t);
        SpanReach(r, v1, v2, v3, u, v, h.t);
        assert OnTriangle(R.Position(r, h.t), v1, v2, v3, u, v);
      }
    }

    /** Conversely, a point of the triangle that the ray reaches at `s >= EPS` is found,
        at exactly that distance, unless the ray is within `EPS` of parallel to it. */
    lemma IntersectFinds(r: R.Ray, s: real, u: real, v: real)
      requires OnTriangle(R.Position(r, s), v1, v2, v3, u, v) && s >= N.EPS
      requires N.Abs(Dot(Sub(v2, v1), Cross(r.direction, Sub(v3, v1)))) >= N.EPS
      ensures Intersect(r).shape == N.Some(this) && Intersect(r).t == s
    {
      var e1 := Sub(v2, v1);
      var e2 := Sub(v3, v1);
      var t := Sub(r.origin, v1);
      assert t == Span(e1, e2, r.direction, u, v, s);
      FindsSpan(this, e1, e2, r.direction, t, u, v, s);
    }

    /** A triangle with two coincident vertices has a zero edge, hence a zero determinant,
        and no ray ever hits it. */
    lemma CoincidentNeverHit(r: R.Ray)
      requires v1 == v2 || v1 == v3 || v2 == v3
      ensures Intersect(r) == H.NoHit()
    {
      var e1 := Sub(v2, v1);
      var e2 := Sub(v3, v1);
      var det := Dot(e1, Cross(r.direction, e2));
      if v1 == v2 {
        assert e1.x == 0.0 && e1.y == 0.0 && e1.z == 0.0;
      } else if v1 == v3 {
        assert e2.x == 0.0 && e2.y == 0.0 && e2.z == 0.0;
      } else {
        assert e1 == e2;
        DotCross(r.direction, e2);
      }
      assert det == 0.0;
    }

    /** The unit face normal. */
    function Normal(sqrt: real -> real): (n: Vector)
      reads this
      requires N.IsSqrt(sqrt) && NonDegenerate(v1, v2, v3)
      ensures n == FaceNormal(v1, v2, v3, sqrt)
    {
      FaceNormal(v1, v2, v3, sqrt)
    }

    /** `FixNormals()`: a vertex normal equal to the zero vector becomes the face normal;
        the others, and every other field, are kept. */
    method FixNormals(sqrt: real -> real)
      requires N.IsSqrt(sqrt) && NonDegenerate(v1, v2, v3)
      modifies this
      ensures v1 == old(v1) && v2 == old(v2) && v3 == old(v3)
      ensures t1 == old(t1) && t2 == old(t2) && t3 == old(t3) && material == old(material)
      ensures n1 == if old(n1) == Zero then Normal(sqrt) else old(n1)
      ensures n2 == if old(n2) == Zero then Normal(sqrt) else old(n2)
      ensures n3 == if old(n3) == Zero then Normal(sqrt) else old(n3)
    {
      var n := Normal(sqrt);
      if n1 == Zero {
        n1 := n;
      }
      if n2 == Zero {
        n2 := n;
      }
      if n3 == Zero {
        n3 := n;
      }
    }

    /** `Barycentric(p)`: the weights `(u, v, w)` of `V1`, `V2`, `V3`, from the Gram
        system of the edges. A degenerate triangle divides by zero and is excluded. */
    function Barycentric(p: Vector): (b: (real, real, real))
      reads this
      requires GramDeterminant(v1, v2, v3) != 0.0
      ensures b.0 + b.1 + b.2 == 1.0
    {
      Weights(Sub(v2, v1), Sub(v3, v1), Sub(p, v1))
    }

    /** The weights recover any point of the triangle's plane: the point
        `v1 + b (v2 - v1) + c (v3 - v1)` has weights `(1 - b - c, b, c)`. */
    lemma BarycentricRecovers(b: real, c: real)
      requires GramDeterminant(v1, v2, v3) != 0.0
      ensures Barycentric(Combination(v1, v2, v3, b, c)) == (1.0 - b - c, b, c)
    {
      var e1 := Sub(v2, v1);
      var e2 := Sub(v3, v1);
      assert Sub(Combination(v1, v2, v3, b, c), v1) == Span(e1, e2, Zero, b, c, 0.0);
      WeightsOfSpan(e1, e2, b, c);
    }

    /** `UV(p)`: the texture coordinates interpolated with the barycentric weights, with
        `z` set to 0. */
    function UV(p: Vector): (uv: Vector)
      reads this
      requires GramDeterminant(v1, v2, v3) != 0.0
      ensures uv.z == 0.0 && uv.w == 1.0
    {
      var (u, v, w) := Barycentric(p);
      var n := Add(Add(Add(Zero, MulScalar(t1, u)), MulScalar(t2, v)), MulScalar(t3, w));
      V3(n.x, n.y, 0.0)
    }

    /** At each vertex the texture coordinates are that vertex's own. */
    lemma UVAtVertices()
      requires GramDeterminant(v1, v2, v3) != 0.0
      ensures UV(v1) == V3(t1.x, t1.y, 0.0)
      ensures UV(v2) == V3(t2.x, t2.y, 0.0)
      ensures UV(v3) == V3(t3.x, t3.y, 0.0)
    {
      WeightsAt(v1, 0.0, 0.0);
      WeightsAt(v2, 1.0, 0.0);
      WeightsAt(v3, 0.0, 1.0);
      UVOfWeights(v1);
      UVOfWeights(v2);
      UVOfWeights(v3);
    }

    /** A point with the same offset from `V1` as `Combination(b, c)` has its weights. */
    lemma WeightsAt(p: Vector, b: real, c: real)
      requires GramDeterminant(v1, v2, v3) != 0.0
      requires Sub(p, v1) == Sub(Combination(v1, v2, v3, b, c), v1)
      ensures Barycentric(p) == (1.0 - b - c, b, c)
    {
      BarycentricRecovers(b, c);
      assert Barycentric(p) == Barycentric(Combination(v1, v2, v3, b, c));
    }

    lemma UVOfWeights(p: Vector)
      requires GramDeterminant(v1, v2, v3) != 0.0
      ensures var (u, v, w) := Barycentric(p);
        UV(p) == V3(t1.x * u + t2.x * v + t3.x * w, t1.y * u + t2.y * v + t3.y * w, 0.0)
    {
    }

    /** `MaterialAt(p)`: the triangle's material wherever it is asked. */
    function MaterialAt(p: Vector): (m: M.Material)
      reads this
      ensures m == material
    {
      material
    }
  }

  /** `Normal()`: the normalised face cross product, a unit vector perpendicular to both
      edges. */
  function FaceNormal(v1: Vector, v2: Vector, v3: Vector, sqrt: real -> real): (n: Vector)
    requires N.IsSqrt(sqrt) && NonDegenerate(v1, v2, v3)
    ensures LengthSquared(n) == 1.0
    ensures Dot(n, Sub(v2, v1)) == 0.0 && Dot(n, Sub(v3, v1)) == 0.0
  {
    var c := FaceCross(v1, v2, v3);
    var n := Normalize(c, sqrt);
    var k :| k > 0.0 && n == MulScalar(c, k);
    ScaledNormal(Sub(v2, v1), Sub(v3, v1), k);
    n
  }

  /** Any multiple of `Cross(a, b)` is orthogonal to both `a` and `b`. */
  lemma ScaledNormal(a: Vector, b: Vector, k: real)
    ensures Dot(MulScalar(Cross(a, b), k), a) == 0.0 && Dot(MulScalar(Cross(a, b), k), b) == 0.0
  {
    var c := Cross(a, b);
    DotCross(a, b);
    DotScaled(c, k, a);
    DotScaled(c, k, b);
  }

  lemma DotScaled(c: Vector, k: real, a: Vector)
    ensures Dot(MulScalar(c, k), a) == k * Dot(a, c)
  {
  }

  /** The tests of `Intersect` on its determinant `det` and the numerators `a`, `b`, `c`
      of the barycentric parameters `u = a / det`, `v = b / det` and the distance
      `c / det`, in the source's order. */
  function Accept<S>(shape: S, det: real, a: real, b: real, c: real): (h: H.Hit<S>)
    ensures h == H.NoHit() || (N.Abs(det) >= N.EPS && h == H.Hit(N.Some(shape), c * (1.0 / det), N.None) &&
      0.0 <= a * (1.0 / det) && 0.0 <= b * (1.0 / det) && a * (1.0 / det) + b * (1.0 / det) <= 1.0 &&
      c * (1.0 / det) >= N.EPS)
  {
    if det > -(N.EPS as real) && det < N.EPS then H.NoHit()
    else
      var inv := 1.0 / det;
      var u := a * inv;
      if u < 0.0 || u > 1.0 then H.NoHit()
      else
        var v := b * inv;
        if v < 0.0 || u + v > 1.0 then H.NoHit()
        else
          var d := c * inv;
          if d < N.EPS then H.NoHit()
          else H.Hit(N.Some(shape), d, N.None)
  }

  /** An accepted hit gives parameters inside the triangle with `t = u e1 + v e2 - s d`
      at its distance `s`. */
  lemma AcceptedSpan<S>(shape: S, e1: Vector, e2: Vector, d: Vector, t: Vector, h: H.Hit<S>)
    requires t.w == 1.0
    requires h == Accept(shape, Dot(e1, Cross(d, e2)), Dot(t, Cross(d, e2)), Dot(d, Cross(t, e1)),
      Dot(e2, Cross(t, e1)))
    requires h != H.NoHit()
    ensures exists u: real, v: real :: 0.0 <= u && 0.0 <= v && u + v <= 1.0 && t == Span(e1, e2, d, u, v, h.t)
  {
    var det := Dot(e1, Cross(d, e2));
    var u, v := Dot(t, Cross(d, e2)) * (1.0 / det), Dot(d, Cross(t, e1)) * (1.0 / det);
    Solve(e1, e2, d, t, u, v, h.t);
  }

  /** For `t = u e1 + v e2 - s d` with the parameters inside the triangle, the test on the
      determinant and numerators of `e1`, `e2`, `d` and `t` accepts at distance `s`. */
  lemma FindsSpan<S>(shape: S, e1: Vector, e2: Vector, d: Vector, t: Vector, u: real, v: real, s: real)
    requires t == Span(e1, e2, d, u, v, s)
    requires 0.0 <= u && 0.0 <= v && u + v <= 1.0 && s >= N.EPS
    requires N.Abs(Dot(e1, Cross(d, e2))) >= N.EPS
    ensures Accept(shape, Dot(e1, Cross(d, e2)), Dot(t, Cross(d, e2)), Dot(d, Cross(t, e1)),
      Dot(e2, Cross(t, e1))) == H.Hit(N.Some(shape), s, N.None)
  {
    Unique(e1, e2, d, t, u, v, s);
    AcceptScaled(shape, Dot(e1, Cross(d, e2)), Dot(t, Cross(d, e2)), Dot(d, Cross(t, e1)),
      Dot(e2, Cross(t, e1)), u, v, s);
  }

  /** Numerators that are the parameters times the determinant pass every test. */
  lemma AcceptScaled<S>(shape: S, det: real, a: real, b: real, c: real, u: real, v: real, s: real)
    requires N.Abs(det) >= N.EPS
    requires a == u * det && b == v * det && c == s * det
    requires 0.0 <= u && 0.0 <= v && u + v <= 1.0 && s >= N.EPS
    ensures Accept(shape, det, a, b, c) == H.Hit(N.Some(shape), s, N.None)
  {
    Divide(a, det, u);
    Divide(b, det, v);
    Divide(c, det, s);
    AcceptInside(shape, det, a, b, c, u, v, s);
  }

  /** Parameters inside the triangle at a distance of at least `EPS` pass every test. */
  lemma AcceptInside<S>(shape: S, det: real, a: real, b: real, c: real, u: real, v: real, s: real)
    requires N.Abs(det) >= N.EPS
    requires a * (1.0 / det) == u && b * (1.0 / det) == v && c * (1.0 / det) == s
    requires 0.0 <= u && 0.0 <= v && u + v <= 1.0 && s >= N.EPS
    ensures Accept(shape, det, a, b, c) == H.Hit(N.Some(shape), s, N.None)
  {
  }

  /** Cramer's rule for `t = u e1 + v e2 - s d`, multiplied through by the determinant
      `e1 . (d x e2)`, one component at a time. */
  lemma Cramer(e1: Vector, e2: Vector, d: Vector, t: Vector)
    ensures Dot(e1, Cross(d, e2)) * t.x ==
      Dot(t, Cross(d, e2)) * e1.x + Dot(d, Cross(t, e1)) * e2.x - Dot(e2, Cross(t, e1)) * d.x
    ensures Dot(e1, Cross(d, e2)) * t.y ==
      Dot(t, Cross(d, e2)) * e1.y + Dot(d, Cross(t, e1)) * e2.y - Dot(e2, Cross(t, e1)) * d.y
    ensures Dot(e1, Cross(d, e2)) * t.z ==
      Dot(t, Cross(d, e2)) * e1.z + Dot(d, Cross(t, e1)) * e2.z - Dot(e2, Cross(t, e1)) * d.z
  {
    CramerComponent(e1.x, e1.y, e1.z, e2.x, e2.y, e2.z, d.x, d.y, d.z, t.x, t.y, t.z);
    CramerComponent(e1.y, e1.z, e1.x, e2.y, e2.z, e2.x, d.y, d.z, d.x, t.y, t.z, t.x);
    CramerComponent(e1.z, e1.x, e1.y, e2.z, e2.x, e2.y, d.z, d.x, d.y, t.z, t.x, t.y);
  }

  /** The first component of Cramer's identity; the others are its cyclic rotations. */
  lemma CramerComponent(ax: real, ay: real, az: real, fx: real, fy: real, fz: real,
                        dx: real, dy: real, dz: real, tx: real, ty: real, tz: real)
    ensures (ax * (dy * fz - dz * fy) + ay * (dz * fx - dx * fz) + az * (dx * fy - dy * fx)) * tx ==
      (tx * (dy * fz - dz * fy) + ty * (dz * fx - dx * fz) + tz * (dx * fy - dy * fx)) * ax +
      (dx * (ty * az - tz * ay) + dy * (tz * ax - tx * az) + dz * (tx * ay - ty * ax)) * fx -
      (fx * (ty * az - tz * ay) + fy * (tz * ax - tx * az) + fz * (tx * ay - ty * ax)) * dx
  {
  }

  /** The numerators of the test divided by the determinant solve
      `t = u e1 + v e2 - s d`. */
  lemma Solve(e1: Vector, e2: Vector, d: Vector, t: Vector, u: real, v: real, s: real)
    requires t.w == 1.0
    requires Dot(e1, Cross(d, e2)) != 0.0
    requires u == Dot(t, Cross(d, e2)) * (1.0 / Dot(e1, Cross(d, e2)))
    requires v == Dot(d, Cross(t, e1)) * (1.0 / Dot(e1, Cross(d, e2)))
    requires s == Dot(e2, Cross(t, e1)) * (1.0 / Dot(e1, Cross(d, e2)))
    ensures t == Span(e1, e2, d, u, v, s)
  {
    Cramer(e1, e2, d, t);
    Solved(Dot(e1, Cross(d, e2)), t, e1, e2, d, Dot(t, Cross(d, e2)), Dot(d, Cross(t, e1)),
           Dot(e2, Cross(t, e1)), u, v, s);
  }

  /** Dividing Cramer's identity by the determinant. */
  lemma Solved(det: real, t: Vector, e1: Vector, e2: Vector, d: Vector, a: real, b: real, c: real,
               u: real, v: real, s: real)
    requires det != 0.0
    requires det * t.x == a * e1.x + b * e2.x - c * d.x
    requires det * t.y == a * e1.y + b * e2.y - c * d.y
    requires det * t.z == a * e1.z + b * e2.z - c * d.z
    requires u == a * (1.0 / det) && v == b * (1.0 / det) && s == c * (1.0 / det)
    requires t.w == 1.0
    ensures t == Span(e1, e2, d, u, v, s)
  {
    var k := 1.0 / det;
    assert k * det == 1.0;
    SolvedComponent(det, k, t.x, a, b, c, e1.x, e2.x, d.x);
    SolvedComponent(det, k, t.y, a, b, c, e1.y, e2.y, d.y);
    SolvedComponent(det, k, t.z, a, b, c, e1.z, e2.z, d.z);
  }

  lemma SolvedComponent(det: real, k: real, t: real, a: real, b: real, c: real, x: real, y: real, z: real)
    requires k * det == 1.0 && det * t == a * x + b * y - c * z
    ensures t == (a * k) * x + (b * k) * y - (c * k) * z
  {
    assert t == k * (det * t);
  }

  /** A ray whose origin is offset from `v1` by `u e1 + v e2 - s d` reaches
      `Combination(v1, v2, v3, u, v)` at `s`. */
  lemma SpanReach(r: R.Ray, v1: Vector, v2: Vector, v3: Vector, u: real, v: real, s: real)
    requires Sub(r.origin, v1) == Span(Sub(v2, v1), Sub(v3, v1), r.direction, u, v, s)
    ensures R.Position(r, s) == Combination(v1, v2, v3, u, v)
  {
  }

  /** `p a + q b - r c`, componentwise. */
  function Span(a: Vector, b: Vector, c: Vector, p: real, q: real, r: real): Vector {
    V3(p * a.x + q * b.x - r * c.x, p * a.y + q * b.y - r * c.y, p * a.z + q * b.z - r * c.z)
  }

  /** One component of `Cross(t, e1)` for `t = u e1 + v f - s d`. */
  lemma CrossComponent(ty: real, tz: real, ey: real, ez: real, u: real, v: real, s: real,
                       fy: real, fz: real, dy: real, dz: real)
    requires ty == u * ey + v * fy - s * dy && tz == u * ez + v * fz - s * dz
    ensures ty * ez - tz * ey == v * (fy * ez - fz * ey) - s * (dy * ez - dz * ey)
  {
  }

  /** Crossing `u e1 + v e2 - s d` with `e1` drops the `e1` term. */
  lemma CrossSpan(e1: Vector, e2: Vector, d: Vector, u: real, v: real, s: real)
    ensures Cross(Span(e1, e2, d, u, v, s), e1) == Span(Cross(e2, e1), Cross(d, e1), Cross(e1, e1), v, -s, 0.0)
  {
    var t := Span(e1, e2, d, u, v, s);
    CrossComponent(t.y, t.z, e1.y, e1.z, u, v, s, e2.y, e2.z, d.y, d.z);
    CrossComponent(t.z, t.x, e1.z, e1.x, u, v, s, e2.z, e2.x, d.z, d.x);
    CrossComponent(t.x, t.y, e1.x, e1.y, u, v, s, e2.x, e2.y, d.x, d.y);
  }

  lemma DotComponent(w: real, a: real, b: real, c: real, p: real, q: real, r: real)
    ensures w * (p * a + q * b - r * c) == p * (w * a) + q * (w * b) - r * (w * c)
  {
  }

  /** `Dot` is linear in its second argument. */
  lemma DotSpan(w: Vector, a: Vector, b: Vector, c: Vector, p: real, q: real, r: real)
    ensures Dot(w, Span(a, b, c, p, q, r)) == p * Dot(w, a) + q * Dot(w, b) - r * Dot(w, c)
  {
    DotComponent(w.x, a.x, b.x, c.x, p, q, r);
    DotComponent(w.y, a.y, b.y, c.y, p, q, r);
    DotComponent(w.z, a.z, b.z, c.z, p, q, r);
  }

  /** The triple product is invariant under cyclic rotation. */
  lemma TripleCyclic(a: Vector, b: Vector, c: Vector)
    ensures Dot(a, Cross(b, c)) == Dot(b, Cross(c, a))
  {
  }

  lemma TripleCyclic2(a: Vector, b: Vector, c: Vector)
    ensures Dot(a, Cross(b, c)) == Dot(c, Cross(a, b))
  {
  }

  lemma Divide(x: real, det: real, a: real)
    requires det != 0.0 && x == a * det
    ensures x * (1.0 / det) == a
  {
    assert (a * det) * (1.0 / det) == a * (det * (1.0 / det));
  }

  /** The three numerators of the test recover the parameters of `u e1 + v e2 - s d`. */
  lemma Unique(e1: Vector, e2: Vector, d: Vector, t: Vector, u: real, v: real, s: real)
    requires t == Span(e1, e2, d, u, v, s)
    ensures var det := Dot(e1, Cross(d, e2));
      Dot(t, Cross(d, e2)) == u * det &&
      Dot(d, Cross(t, e1)) == v * det &&
      Dot(e2, Cross(t, e1)) == s * det
  {
    DotSpan(Cross(d, e2), e1, e2, d, u, v, s);
    DotCross(Span(e1, e2, d, u, v, s), Cross(d, e2));
    DotCross(d, e2);
    DotCross(e1, Cross(d, e2));
    CrossSpan(e1, e2, d, u, v, s);
    DotSpan(d, Cross(e2, e1), Cross(d, e1), Cross(e1, e1), v, -s, 0.0);
    DotSpan(e2, Cross(e2, e1), Cross(d, e1), Cross(e1, e1), v, -s, 0.0);
    TripleCyclic(d, e2, e1);
    TripleCyclic(e2, d, e1);
    TripleCyclic(e1, d, e2);
    TripleCyclic(d, e1, d);
    TripleCyclic(e2, e1, e2);
  }

  lemma GramScalar(a: real, p: real, q: real, b: real, c: real)
    ensures q * (b * a + c * p) - p * (b * p + c * q) == b * (a * q - p * p)
    ensures a * (b * p + c * q) - p * (b * a + c * p) == c * (a * q - p * p)
  {
  }

  /** The body of `Barycentric` on the edges `e1`, `e2` and the offset `f` of the point. */
  function Weights(e1: Vector, e2: Vector, f: Vector): (b: (real, real, real))
    requires Gram(e1, e2) != 0.0
    ensures b.0 + b.1 + b.2 == 1.0
  {
    var (x, y) := Numerators(e1, e2, f);
    Quotients(Gram(e1, e2), x, y)
  }

  /** The numerators of `v` and `w` in `Barycentric`, from the dot products `d00`, `d01`,
      `d11`, `d20`, `d21`. */
  function Numerators(e1: Vector, e2: Vector, f: Vector): (real, real) {
    var d00 := Dot(e1, e1);
    var d01 := Dot(e1, e2);
    var d11 := Dot(e2, e2);
    var d20 := Dot(f, e1);
    var d21 := Dot(f, e2);
    (d11 * d20 - d01 * d21, d00 * d21 - d01 * d20)
  }

  /** `(1 - v - w, v, w)` for `v = x / d` and `w = y / d`. */
  function Quotients(d: real, x: real, y: real): (real, real, real)
    requires d != 0.0
  {
    var v := x / d;
    var w := y / d;
    (1.0 - v - w, v, w)
  }

  lemma WeightsOfSpan(e1: Vector, e2: Vector, b: real, c: real)
    requires Gram(e1, e2) != 0.0
    ensures Weights(e1, e2, Span(e1, e2, Zero, b, c, 0.0)) == (1.0 - b - c, b, c)
  {
    var f := Span(e1, e2, Zero, b, c, 0.0);
    var d := Gram(e1, e2);
    var (x, y) := Numerators(e1, e2, f);
    GramSolve(e1, e2, b, c);
    DivideBy(x, d, b);
    DivideBy(y, d, c);
  }

  lemma DivideBy(x: real, d: real, a: real)
    requires d != 0.0 && x == a * d
    ensures x / d == a
  {
  }

  /** The Gram system solved for a point `b e1 + c e2` of the plane. */
  lemma GramSolve(e1: Vector, e2: Vector, b: real, c: real)
    ensures var (x, y) := Numerators(e1, e2, Span(e1, e2, Zero, b, c, 0.0));
      x == b * Gram(e1, e2) && y == c * Gram(e1, e2)
  {
    var f := Span(e1, e2, Zero, b, c, 0.0);
    DotSpan(e1, e1, e2, Zero, b, c, 0.0);
    DotSpan(e2, e1, e2, Zero, b, c, 0.0);
    DotCross(f, e1);
    DotCross(f, e2);
    DotCross(e1, e2);
    GramScalar(Dot(e1, e1), Dot(e1, e2), Dot(e2, e2), b, c);
  }

  /** The triangles' current bounding boxes, in order. */
  function BoxesOf(shapes: seq<Triangle>): (bs: seq<B.Box>)
    reads shapes
    ensures |bs| == |shapes|
    ensures forall i :: 0 <= i < |shapes| ==> bs[i] == shapes[i].BoundingBox()
  {
    if |shapes| == 0 then [] else [shapes[0].BoundingBox()] + BoxesOf(shapes[1..])
  }

  /** A box as its own bounding box. */
  function BoxOf(b: B.Box): B.Box {
    b
  }

  /** `Box.BoxForTriangles`: the default box for no triangles, otherwise the running
      `Extend` of every triangle's box, the same loop as `BoxForShapes`. */
  method BoxForTriangles(shapes: seq<Triangle>) returns (box: B.Box)
    ensures |shapes| == 0 ==> box == B.Empty
    ensures |shapes| > 0 ==> box == B.Hull(BoxesOf(shapes), BoxOf)
    ensures forall i :: 0 <= i < |shapes| ==> B.Encloses(box, shapes[i].BoundingBox())
  {
    var bs := BoxesOf(shapes);
    box := B.BoxForShapes(bs, BoxOf);
  }
}
