/** 4x4 affine transformation matrices (Matrix.cs), row-major: `xRC` is row R, column C. */
module Matrices {
  import N = Numeric
  import opened Vectors
  import B = Boxes
  import R = Rays

  datatype Matrix = Matrix(
    x00: real, x01: real, x02: real, x03: real,
    x10: real, x11: real, x12: real, x13: real,
    x20: real, x21: real, x22: real, x23: real,
    x30: real, x31: real, x32: real, x33: real)

  const Identity: Matrix := Matrix(1.0, 0.0, 0.0, 0.0, 0.0, 1.0, 0.0, 0.0, 0.0, 0.0, 1.0, 0.0, 0.0, 0.0, 0.0, 1.0)

  /** The last row is `(0, 0, 0, 1)`, as for every matrix built from translations and scalings. */
  predicate Affine(m: Matrix) {
    m.x30 == 0.0 && m.x31 == 0.0 && m.x32 == 0.0 && m.x33 == 1.0
  }

  /** `Translate(v)` (the receiver is not used). */
  function Translate(v: Vector): Matrix {
    Matrix(1.0, 0.0, 0.0, v.x, 0.0, 1.0, 0.0, v.y, 0.0, 0.0, 1.0, v.z, 0.0, 0.0, 0.0, 1.0)
  }

  /** `Scale(v)` (the receiver is not used). */
  function Scale(v: Vector): Matrix {
    Matrix(v.x, 0.0, 0.0, 0.0, 0.0, v.y, 0.0, 0.0, 0.0, 0.0, v.z, 0.0, 0.0, 0.0, 0.0, 1.0)
  }

  /** `a.Mul(b)`, the matrix product `a b`. */
  function Mul(a: Matrix, b: Matrix): Matrix {
    Matrix(
      a.x00 * b.x00 + a.x01 * b.x10 + a.x02 * b.x20 + a.x03 * b.x30,
      a.x00 * b.x01 + a.x01 * b.x11 + a.x02 * b.x21 + a.x03 * b.x31,
      a.x00 * b.x02 + a.x01 * b.x12 + a.x02 * b.x22 + a.x03 * b.x32,
      a.x00 * b.x03 + a.x01 * b.x13 + a.x02 * b.x23 + a.x03 * b.x33,
      a.x10 * b.x00 + a.x11 * b.x10 + a.x12 * b.x20 + a.x13 * b.x30,
      a.x10 * b.x01 + a.x11 * b.x11 + a.x12 * b.x21 + a.x13 * b.x31,
      a.x10 * b.x02 + a.x11 * b.x12 + a.x12 * b.x22 + a.x13 * b.x32,
      a.x10 * b.x03 + a.x11 * b.x13 + a.x12 * b.x23 + a.x13 * b.x33,
      a.x20 * b.x00 + a.x21 * b.x10 + a.x22 * b.x20 + a.x23 * b.x30,
      a.x20 * b.x01 + a.x21 * b.x11 + a.x22 * b.x21 + a.x23 * b.x31,
      a.x20 * b.x02 + a.x21 * b.x12 + a.x22 * b.x22 + a.x23 * b.x32,
      a.x20 * b.x03 + a.x21 * b.x13 + a.x22 * b.x23 + a.x23 * b.x33,
      a.x30 * b.x00 + a.x31 * b.x10 + a.x32 * b.x20 + a.x33 * b.x30,
      a.x30 * b.x01 + a.x31 * b.x11 + a.x32 * b.x21 + a.x33 * b.x31,
      a.x30 * b.x02 + a.x31 * b.x12 + a.x32 * b.x22 + a.x33 * b.x32,
      a.x30 * b.x03 + a.x31 * b.x13 + a.x32 * b.x23 + a.x33 * b.x33)
  }

  /** `Translate(m, v)`: `Translate(v) m`, translation applied after `m`. */
  function TranslateAfter(m: Matrix, v: Vector): Matrix {
    Mul(Translate(v), m)
  }

  /** `Scale(m, v)`: `Scale(v) m`, scaling applied after `m`. */
  function ScaleAfter(m: Matrix, v: Vector): Matrix {
    Mul(Scale(v), m)
  }

  /** `m.MulPosition(p)`: the affine image of the point `p`, translation included. */
  function MulPosition(m: Matrix, p: Vector): Vector {
    V3(m.x00 * p.x + m.x01 * p.y + m.x02 * p.z + m.x03,
       m.x10 * p.x + m.x11 * p.y + m.x12 * p.z + m.x13,
       m.x20 * p.x + m.x21 * p.y + m.x22 * p.z + m.x23)
  }

  /** The linear part of `m` applied to `d`, before normalisation. */
  function LinearPart(m: Matrix, d: Vector): Vector {
    V3(m.x00 * d.x + m.x01 * d.y + m.x02 * d.z,
       m.x10 * d.x + m.x11 * d.y + m.x12 * d.z,
       m.x20 * d.x + m.x21 * d.y + m.x22 * d.z)
  }

  /** `m.MulDirection(d)`: the linear part applied to `d`, normalised. A direction the
      matrix maps to zero would be normalised to NaN in the source and is excluded. */
  function MulDirection(m: Matrix, d: Vector, sqrt: real -> real): (r: Vector)
    requires N.IsSqrt(sqrt) && LengthSquared(LinearPart(m, d)) > 0.0
    ensures LengthSquared(r) == 1.0
    ensures r == Normalize(Sub(MulPosition(m, d), MulPosition(m, Origin)), sqrt)
  {
    assert Sub(MulPosition(m, d), MulPosition(m, Origin)) == LinearPart(m, d);
    Normalize(LinearPart(m, d), sqrt)
  }

  /** `m.MulRay(r)`: the image of the origin, with the image of the direction normalised. */
  function MulRay(m: Matrix, r: R.Ray, sqrt: real -> real): (t: R.Ray)
    requires N.IsSqrt(sqrt) && LengthSquared(LinearPart(m, r.direction)) > 0.0
    ensures t.origin == MulPosition(m, r.origin) && LengthSquared(t.direction) == 1.0
  {
    R.Ray(MulPosition(m, r.origin), MulDirection(m, r.direction, sqrt))
  }

  /** The transformed ray passes through the image of every point of the ray: the point at
      `t` goes to the point at `t` times the length of the direction's image. */
  lemma MulRayMapsPoints(m: Matrix, r: R.Ray, t: real, sqrt: real -> real)
    requires N.IsSqrt(sqrt) && LengthSquared(LinearPart(m, r.direction)) > 0.0
    ensures MulPosition(m, R.Position(r, t)) ==
      R.Position(MulRay(m, r, sqrt), t * Length(LinearPart(m, r.direction), sqrt))
  {
    var l := LinearPart(m, r.direction);
    var s := Length(l, sqrt);
    NormalizeByLength(l, sqrt, s);
    MapsPoints(m, r.origin, r.direction, MulRay(m, r, sqrt).direction, s, t);
  }

  /** `MulRayMapsPoints` for a direction image `l` normalised by its length `s`. */
  lemma MapsPoints(m: Matrix, o: Vector, d: Vector, n: Vector, s: real, t: real)
    requires s > 0.0
    requires n == V3(LinearPart(m, d).x / s, LinearPart(m, d).y / s, LinearPart(m, d).z / s)
    ensures MulPosition(m, R.Position(R.Ray(o, d), t)) ==
      R.Position(R.Ray(MulPosition(m, o), n), t * s)
  {
    RowMapsPoint(m.x00, m.x01, m.x02, m.x03, o.x, o.y, o.z, d.x, d.y, d.z, s, t);
    RowMapsPoint(m.x10, m.x11, m.x12, m.x13, o.x, o.y, o.z, d.x, d.y, d.z, s, t);
    RowMapsPoint(m.x20, m.x21, m.x22, m.x23, o.x, o.y, o.z, d.x, d.y, d.z, s, t);
  }

  /** One row of `MulPosition` at `o + t d` is the row at `o` plus the row's linear part at
      `d`, divided by `s` and multiplied by `t s`. */
  lemma RowMapsPoint(a0: real, a1: real, a2: real, a3: real, ox: real, oy: real, oz: real,
                     dx: real, dy: real, dz: real, s: real, t: real)
    requires s > 0.0
    ensures a0 * (ox + dx * t) + a1 * (oy + dy * t) + a2 * (oz + dz * t) + a3 ==
      (a0 * ox + a1 * oy + a2 * oz + a3) + ((a0 * dx + a1 * dy + a2 * dz) / s) * (t * s)
  {
    var l := a0 * dx + a1 * dy + a2 * dz;
    assert (l / s) * (t * s) == t * l;
  }

  /** The translation column of `m` does not affect `MulDirection` ... */
  lemma DirectionIgnoresTranslation(m: Matrix, p: Vector, v: Vector, sqrt: real -> real)
    requires N.IsSqrt(sqrt) && LengthSquared(LinearPart(m, p)) > 0.0
    ensures var t := m.(x03 := v.x, x13 := v.y, x23 := v.z);
      LengthSquared(LinearPart(t, p)) > 0.0 && MulDirection(t, p, sqrt) == MulDirection(m, p, sqrt)
  {
    var t := m.(x03 := v.x, x13 := v.y, x23 := v.z);
    assert LinearPart(t, p) == LinearPart(m, p);
  }

  /** ... but moves `MulPosition` by exactly the amount it is changed. */
  lemma PositionFollowsTranslation(m: Matrix, p: Vector, v: Vector)
    ensures MulPosition(m.(x03 := m.x03 + v.x, x13 := m.x13 + v.y, x23 := m.x23 + v.z), p) == Add(MulPosition(m, p), v)
  {
    var s := m.(x03 := m.x03 + v.x, x13 := m.x13 + v.y, x23 := m.x23 + v.z);
    var l := LinearPart(m, p);
    assert LinearPart(s, p) == l;
    assert MulPosition(m, p) == V3(l.x + m.x03, l.y + m.x13, l.z + m.x23);
    assert MulPosition(s, p) == V3(l.x + (m.x03 + v.x), l.y + (m.x13 + v.y), l.z + (m.x23 + v.z));
  }

  /** `m.MulBox(box)`: the box spanned by the images of the corners, computed per column as
      Arvo's method does. */
  function MulBox(m: Matrix, box: B.Box): (res: B.Box)
    ensures B.WellFormed(res) && !res.left && !res.right
  {
    var r := V3(m.x00, m.x10, m.x20);
    var u := V3(m.x01, m.x11, m.x21);
    var b := V3(m.x02, m.x12, m.x22);
    var t := V3(m.x03, m.x13, m.x23);
    var xa := MulScalar(r, box.min.x);
    var xb := MulScalar(r, box.max.x);
    var ya := MulScalar(u, box.min.y);
    var yb := MulScalar(u, box.max.y);
    var za := MulScalar(b, box.min.z);
    var zb := MulScalar(b, box.max.z);
    B.NewBox(Add(Add(Add(Vectors.Min(xa, xb), Vectors.Min(ya, yb)), Vectors.Min(za, zb)), t),
             Add(Add(Add(Vectors.Max(xa, xb), Vectors.Max(ya, yb)), Vectors.Max(za, zb)), t))
  }

  /** The transformed box holds the image of every point of the original box. */
  lemma MulBoxContains(m: Matrix, box: B.Box, p: Vector)
    requires B.Contains(box, p)
    ensures B.Contains(MulBox(m, box), MulPosition(m, p))
  {
    var r := V3(m.x00, m.x10, m.x20);
    var u := V3(m.x01, m.x11, m.x21);
    var b := V3(m.x02, m.x12, m.x22);
    var t := V3(m.x03, m.x13, m.x23);
    assert MulPosition(m, p) ==
      Add(Add(Add(MulScalar(r, p.x), MulScalar(u, p.y)), MulScalar(b, p.z)), t);
    ScaledAbove(r, box.min.x, p.x, box.max.x);
    ScaledAbove(u, box.min.y, p.y, box.max.y);
    ScaledAbove(b, box.min.z, p.z, box.max.z);
    ScaledBelow(r, box.min.x, p.x, box.max.x);
    ScaledBelow(u, box.min.y, p.y, box.max.y);
    ScaledBelow(b, box.min.z, p.z, box.max.z);
  }

  /** For `lo <= s <= hi`, `v s` is at least the componentwise minimum of `v lo` and
      `v hi`, whatever the signs of `v`'s components. */
  lemma ScaledAbove(v: Vector, lo: real, s: real, hi: real)
    requires lo <= s <= hi
    ensures LessEq(Vectors.Min(MulScalar(v, lo), MulScalar(v, hi)), MulScalar(v, s))
  {
    ScaledAboveComponents(lo, s, hi, v.x, v.y, v.z);
  }

  /** ... and at most their componentwise maximum. */
  lemma ScaledBelow(v: Vector, lo: real, s: real, hi: real)
    requires lo <= s <= hi
    ensures LessEq(MulScalar(v, s), Vectors.Max(MulScalar(v, lo), MulScalar(v, hi)))
  {
    ScaledBelowComponents(lo, s, hi, v.x, v.y, v.z);
  }

  /** `ScaledAboveReal` for three components at once. */
  lemma ScaledAboveComponents(lo: real, s: real, hi: real, x: real, y: real, z: real)
    requires lo <= s <= hi
    ensures x * lo <= x * s || x * hi <= x * s
    ensures y * lo <= y * s || y * hi <= y * s
    ensures z * lo <= z * s || z * hi <= z * s
  {
    ScaledAboveReal(x, lo, s, hi);
    ScaledAboveReal(y, lo, s, hi);
    ScaledAboveReal(z, lo, s, hi);
  }

  /** `ScaledBelowReal` for three components at once. */
  lemma ScaledBelowComponents(lo: real, s: real, hi: real, x: real, y: real, z: real)
    requires lo <= s <= hi
    ensures x * s <= x * lo || x * s <= x * hi
    ensures y * s <= y * lo || y * s <= y * hi
    ensures z * s <= z * lo || z * s <= z * hi
  {
    ScaledBelowReal(x, lo, s, hi);
    ScaledBelowReal(y, lo, s, hi);
    ScaledBelowReal(z, lo, s, hi);
  }

  /** For `a <= p <= b`, `c p` is at least one of `c a` and `c b` ... */
  lemma ScaledAboveReal(c: real, a: real, p: real, b: real)
    requires a <= p <= b
    ensures c * a <= c * p || c * b <= c * p
  {
    if c > 0.0 && a < p {
      N.MulPos(p - a, c);
    } else if c < 0.0 && p < b {
      N.MulPos(b - p, -c);
    }
  }

  /** ... and at most one of them. */
  lemma ScaledBelowReal(c: real, a: real, p: real, b: real)
    requires a <= p <= b
    ensures c * p <= c * a || c * p <= c * b
  {
    if c > 0.0 && p < b {
      N.MulPos(b - p, c);
    } else if c < 0.0 && a < p {
      N.MulPos(p - a, -c);
    }
  }

  /** A translation moves a well-formed box's corners by the offset. */
  lemma TranslateBox(v: Vector, box: B.Box)
    requires B.WellFormed(box)
    ensures MulBox(Translate(v), box) == B.NewBox(Add(box.min, v), Add(box.max, v))
  {
  }

  function Transpose(m: Matrix): Matrix {
    Matrix(m.x00, m.x10, m.x20, m.x30, m.x01, m.x11, m.x21, m.x31,
           m.x02, m.x12, m.x22, m.x32, m.x03, m.x13, m.x23, m.x33)
  }

  /** The Laplace expansion of the determinant, term by term as the source writes it. */
  function Determinant(m: Matrix): real {
    m.x00 * m.x11 * m.x22 * m.x33 - m.x00 * m.x11 * m.x23 * m.x32 +
    m.x00 * m.x12 * m.x23 * m.x31 - m.x00 * m.x12 * m.x21 * m.x33 +
    m.x00 * m.x13 * m.x21 * m.x32 - m.x00 * m.x13 * m.x22 * m.x31 -
    m.x01 * m.x12 * m.x23 * m.x30 + m.x01 * m.x12 * m.x20 * m.x33 -
    m.x01 * m.x13 * m.x20 * m.x32 + m.x01 * m.x13 * m.x22 * m.x30 -
    m.x01 * m.x10 * m.x22 * m.x33 + m.x01 * m.x10 * m.x23 * m.x32 +
    m.x02 * m.x13 * m.x20 * m.x31 - m.x02 * m.x13 * m.x21 * m.x30 +
    m.x02 * m.x10 * m.x21 * m.x33 - m.x02 * m.x10 * m.x23 * m.x31 +
    m.x02 * m.x11 * m.x23 * m.x30 - m.x02 * m.x11 * m.x20 * m.x33 -
    m.x03 * m.x10 * m.x21 * m.x32 + m.x03 * m.x10 * m.x22 * m.x31 -
    m.x03 * m.x11 * m.x22 * m.x30 + m.x03 * m.x11 * m.x20 * m.x32 -
    m.x03 * m.x12 * m.x20 * m.x31 + m.x03 * m.x12 * m.x21 * m.x30
  }

  /** The determinant does not change under transposition; a scaling multiplies volumes by
      the product of its factors and a translation keeps them. */
  lemma DeterminantProperties(m: Matrix, v: Vector)
    ensures Determinant(Transpose(m)) == Determinant(m)
    ensures Determinant(Scale(v)) == v.x * v.y * v.z
    ensures Determinant(Translate(v)) == 1.0
  {
  }

  /** Transposing twice gives the matrix back, and the identity is its own transpose. */
  lemma TransposeInvolution(m: Matrix)
    ensures Transpose(Transpose(m)) == m
    ensures Transpose(Identity) == Identity
  {
  }

  /** The identity is a two-sided unit of `Mul`, fixes every point and has determinant 1. */
  lemma IdentityUnit(m: Matrix, p: Vector)
    ensures Mul(Identity, m) == m && Mul(m, Identity) == m
    ensures MulPosition(Identity, p) == Point(p)
    ensures Determinant(Identity) == 1.0
  {
  }

  /** `Translate(v)` adds `v` to a point; `Scale(v)` multiplies it componentwise. */
  lemma TranslateScalePositions(v: Vector, p: Vector)
    ensures MulPosition(Translate(v), p) == Add(p, v)
    ensures MulPosition(Scale(v), p) == Vectors.Mul(p, v)
    ensures Affine(Translate(v)) && Affine(Scale(v))
  {
  }

  /** For an affine `b`, transforming by `a b` is transforming by `b`, then by `a`. */
  lemma MulPositionCompose(a: Matrix, b: Matrix, p: Vector)
    requires Affine(b)
    ensures MulPosition(Mul(a, b), p) == MulPosition(a, MulPosition(b, p))
  {
    RowCompose(a.x00, a.x01, a.x02, a.x03, b, p);
    RowCompose(a.x10, a.x11, a.x12, a.x13, b, p);
    RowCompose(a.x20, a.x21, a.x22, a.x23, b, p);
  }

  /** One row `(a0, a1, a2, a3)` of `a` against an affine `b`: regrouping the products. */
  lemma RowCompose(a0: real, a1: real, a2: real, a3: real, b: Matrix, p: Vector)
    requires Affine(b)
    ensures var q := MulPosition(b, p);
      (a0 * b.x00 + a1 * b.x10 + a2 * b.x20 + a3 * b.x30) * p.x +
      (a0 * b.x01 + a1 * b.x11 + a2 * b.x21 + a3 * b.x31) * p.y +
      (a0 * b.x02 + a1 * b.x12 + a2 * b.x22 + a3 * b.x32) * p.z +
      (a0 * b.x03 + a1 * b.x13 + a2 * b.x23 + a3 * b.x33)
      == a0 * q.x + a1 * q.y + a2 * q.z + a3
  {
    Distribute(a0, b.x00, b.x01, b.x02, b.x03, p);
    Distribute(a1, b.x10, b.x11, b.x12, b.x13, p);
    Distribute(a2, b.x20, b.x21, b.x22, b.x23, p);
  }

  lemma Distribute(a: real, c0: real, c1: real, c2: real, c3: real, p: Vector)
    ensures a * (c0 * p.x + c1 * p.y + c2 * p.z + c3) ==
      (a * c0) * p.x + (a * c1) * p.y + (a * c2) * p.z + a * c3
  {
  }

  /** `Translate(m, v)` and `Scale(m, v)` apply `m` first and then the translation or the scaling. */
  lemma AfterCompose(m: Matrix, v: Vector, p: Vector)
    requires Affine(m)
    ensures MulPosition(TranslateAfter(m, v), p) == Add(MulPosition(m, p), v)
    ensures MulPosition(ScaleAfter(m, v), p) == Vectors.Mul(MulPosition(m, p), v)
    ensures Affine(TranslateAfter(m, v)) && Affine(ScaleAfter(m, v))
  {
    MulPositionCompose(Translate(v), m, p);
    MulPositionCompose(Scale(v), m, p);
    TranslateScalePositions(v, MulPosition(m, p));
  }
}
