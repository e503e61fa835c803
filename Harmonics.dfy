/** Spherical-harmonic shapes (SH.cs): the surface `r = |Y_lm(direction)|`, coloured by
    the sign of `Y_lm`. Its triangle mesh comes from marching cubes (MC), which is not part
    of this model: the mesh's ray distance is a parameter. */
module Harmonics {
  import N = Numeric
  import opened Vectors
  import R = Rays
  import B = Boxes
  import M = Materials
  import H = Hits

  /** The real spherical harmonics `Y_lm` of degree `l <= 4`, in Cartesian form on a unit
      direction `d`, with the source's rounded coefficients. */
  function Sh00(d: Vector): real {
    0.282095
  }

  function Sh1n1(d: Vector): real {
    -0.488603 * d.y
  }

  function Sh10(d: Vector): real {
    0.488603 * d.z
  }

  function Sh1p1(d: Vector): real {
    -0.488603 * d.x
  }

  function Sh2n2(d: Vector): real {
    1.092548 * d.x * d.y
  }

  function Sh2n1(d: Vector): real {
    -1.092548 * d.y * d.z
  }

  function Sh20(d: Vector): real {
    0.315392 * (-d.x * d.x - d.y * d.y + 2.0 * d.z * d.z)
  }

  function Sh2p1(d: Vector): real {
    -1.092548 * d.x * d.z
  }

  function Sh2p2(d: Vector): real {
    0.546274 * (d.x * d.x - d.y * d.y)
  }

  function Sh3n3(d: Vector): real {
    -0.590044 * d.y * (3.0 * d.x * d.x - d.y * d.y)
  }

  function Sh3n2(d: Vector): real {
    2.890611 * d.x * d.y * d.z
  }

  function Sh3n1(d: Vector): real {
    -0.457046 * d.y * (4.0 * d.z * d.z - d.x * d.x - d.y * d.y)
  }

  function Sh30(d: Vector): real {
    0.373176 * d.z * (2.0 * d.z * d.z - 3.0 * d.x * d.x - 3.0 * d.y * d.y)
  }

  function Sh3p1(d: Vector): real {
    -0.457046 * d.x * (4.0 * d.z * d.z - d.x * d.x - d.y * d.y)
  }

  function Sh3p2(d: Vector): real {
    1.445306 * d.z * (d.x * d.x - d.y * d.y)
  }

  function Sh3p3(d: Vector): real {
    -0.590044 * d.x * (d.x * d.x - 3.0 * d.y * d.y)
  }

  function Sh4n4(d: Vector): real {
    2.503343 * d.x * d.y * (d.x * d.x - d.y * d.y)
  }

  function Sh4n3(d: Vector): real {
    -1.770131 * d.y * d.z * (3.0 * d.x * d.x - d.y * d.y)
  }

  function Sh4n2(d: Vector): real {
    0.946175 * d.x * d.y * (7.0 * d.z * d.z - 1.0)
  }

  function Sh4n1(d: Vector): real {
    -0.669047 * d.y * d.z * (7.0 * d.z * d.z - 3.0)
  }

  function Sh40(d: Vector): real {
    var z2 := d.z * d.z;
    0.105786 * (35.0 * z2 * z2 - 30.0 * z2 + 3.0)
  }

  function Sh4p1(d: Vector): real {
    -0.669047 * d.x * d.z * (7.0 * d.z * d.z - 3.0)
  }

  function Sh4p2(d: Vector): real {
    0.473087 * (d.x * d.x - d.y * d.y) * (7.0 * d.z * d.z - 1.0)
  }

  function Sh4p3(d: Vector): real {
    -1.770131 * d.x * d.z * (d.x * d.x - 3.0 * d.y * d.y)
  }

  function Sh4p4(d: Vector): real {
    var x2, y2 := d.x * d.x, d.y * d.y;
    0.625836 * (x2 * (x2 - 3.0 * y2) - y2 * (3.0 * x2 - y2))
  }

  /** The `(l, m)` pairs that have a basis function: `0 <= l <= 4` and `-l <= m <= l`. */
  predicate Supported(l: int, m: int) {
    0 <= l <= 4 && -l <= m <= l
  }

  /** `shFunc(l, m)`: the basis function for `(l, m)`, or none (`null`, after a console
      message, which is not modelled) for an unsupported pair. */
  function ShFunc(l: int, m: int): (f: N.Option<Vector -> real>)
    ensures f.Some? <==> Supported(l, m)
  {
    if l == 0 && m == 0 then N.Some(Sh00)
    else if l == 1 && m == -1 then N.Some(Sh1n1)
    else if l == 1 && m == 0 then N.Some(Sh10)
    else if l == 1 && m == 1 then N.Some(Sh1p1)
    else if l == 2 && m == -2 then N.Some(Sh2n2)
    else if l == 2 && m == -1 then N.Some(Sh2n1)
    else if l == 2 && m == 0 then N.Some(Sh20)
    else if l == 2 && m == 1 then N.Some(Sh2p1)
    else if l == 2 && m == 2 then N.Some(Sh2p2)
    else if l == 3 && m == -3 then N.Some(Sh3n3)
    else if l == 3 && m == -2 then N.Some(Sh3n2)
    else if l == 3 && m == -1 then N.Some(Sh3n1)
    else if l == 3 && m == 0 then N.Some(Sh30)
    else if l == 3 && m == 1 then N.Some(Sh3p1)
    else if l == 3 && m == 2 then N.Some(Sh3p2)
    else if l == 3 && m == 3 then N.Some(Sh3p3)
    else if l == 4 && m == -4 then N.Some(Sh4n4)
    else if l == 4 && m == -3 then N.Some(Sh4n3)
    else if l == 4 && m == -2 then N.Some(Sh4n2)
    else if l == 4 && m == -1 then N.Some(Sh4n1)
    else if l == 4 && m == 0 then N.Some(Sh40)
    else if l == 4 && m == 1 then N.Some(Sh4p1)
    else if l == 4 && m == 2 then N.Some(Sh4p2)
    else if l == 4 && m == 3 then N.Some(Sh4p3)
    else if l == 4 && m == 4 then N.Some(Sh4p4)
    else N.None
  }

  /** Every basis function has the parity of its degree: `Y_lm(-d) = (-1)^l Y_lm(d)`. */
  lemma Parity(l: int, m: int, d: Vector)
    requires Supported(l, m)
    ensures var f := ShFunc(l, m).value; f(Negate(d)) == if l % 2 == 0 then f(d) else -f(d)
  {
  }

  /** A harmonic shape: the materials for the positive and negative lobes, the harmonic,
      and the distance at which the ray meets the marching-cubes mesh (`Hit.INF` or more
      for a miss), a collaborator that is not modelled. */
  datatype SphericalHarmonic = SphericalHarmonic(positive: M.Material, negative: M.Material,
                                                 harmonic: Vector -> real, meshT: R.Ray -> real)

  /** `NewSphericalHarmonic`. An unsupported pair leaves the harmonic `null`, which the
      mesh construction then calls; the source fails there, so the pair must be supported. */
  function NewSphericalHarmonic(l: int, m: int, pm: M.Material, nm: M.Material, meshT: R.Ray -> real): (sh: SphericalHarmonic)
    requires Supported(l, m)
    ensures sh.harmonic == ShFunc(l, m).value
    ensures sh.positive == pm && sh.negative == nm && sh.meshT == meshT
  {
    SphericalHarmonic(pm, nm, ShFunc(l, m).value, meshT)
  }

  /** The three `BoundingBox` variants (the shape's, the signed-distance function's and the
      internal one) all return the cube `[-1, 1]^3`. */
  function BoundingBox(sh: SphericalHarmonic): (b: B.Box)
    ensures b.min == V3(-1.0, -1.0, -1.0) && b.max == V3(1.0, 1.0, 1.0)
    ensures B.WellFormed(b) && B.Contains(b, V3(0.0, 0.0, 0.0))
  {
    B.NewBox(V3(-1.0, -1.0, -1.0), V3(1.0, 1.0, 1.0))
  }

  /** `Intersect(r)`: a miss of the mesh is a miss; a mesh hit is reported at the mesh's
      distance, with this shape. */
  function Intersect(sh: SphericalHarmonic, r: R.Ray): (h: H.Hit<SphericalHarmonic>)
    ensures H.Ok(h) <==> sh.meshT(r) < H.HitInf
    ensures H.Ok(h) ==> h == H.Hit(N.Some(sh), sh.meshT(r), N.None)
    ensures !H.Ok(h) ==> h == H.NoHit()
  {
    var t := sh.meshT(r);
    if !(t < H.HitInf) then H.NoHit() else H.Hit(N.Some(sh), t, N.None)
  }

  /** `UV(p)`: the zero vector everywhere. */
  function UV(sh: SphericalHarmonic, p: Vector): (uv: Vector)
    ensures uv == Zero
  {
    Zero
  }

  /** `EvaluateHarmonic(p)`: the harmonic in the direction of `p`. At the origin the
      source normalises the zero vector (NaN); that point is excluded. */
  function EvaluateHarmonic(sh: SphericalHarmonic, p: Vector, sqrt: real -> real): real
    requires N.IsSqrt(sqrt) && LengthSquared(p) > 0.0
  {
    sh.harmonic(Normalize(p, sqrt))
  }

  /** `MaterialAt(p)`: the negative material where the harmonic is negative, the positive
      one where it is zero or positive. At the origin (where `Scene.Add` asks every shape)
      the source normalises the zero vector: the harmonic is NaN, or the constant of `sh00`,
      and neither is below zero, so the positive material is returned. */
  function MaterialAt(sh: SphericalHarmonic, p: Vector, sqrt: real -> real): (m: M.Material)
    requires N.IsSqrt(sqrt)
    ensures LengthSquared(p) > 0.0 && EvaluateHarmonic(sh, p, sqrt) < 0.0 ==> m == sh.negative
    ensures LengthSquared(p) > 0.0 && EvaluateHarmonic(sh, p, sqrt) >= 0.0 ==> m == sh.positive
    ensures LengthSquared(p) == 0.0 ==> m == sh.positive
  {
    if LengthSquared(p) > 0.0 && EvaluateHarmonic(sh, p, sqrt) < 0.0 then sh.negative else sh.positive
  }

  /** `Evaluate(p)`, which the shape and its signed-distance interface write identically:
      the distance from the origin minus the harmonic's magnitude in that direction. */
  function Evaluate(sh: SphericalHarmonic, p: Vector, sqrt: real -> real): real
    requires N.IsSqrt(sqrt) && LengthSquared(p) > 0.0
  {
    Length(p, sqrt) - N.Abs(sh.harmonic(Normalize(p, sqrt)))
  }

  /** Along a unit direction `d`, `Evaluate` at distance `k` is `k - |Y(d)|`: the surface
      `Evaluate = 0` is the point at distance `|Y(d)|`, inside is below it and outside
      above it. */
  lemma EvaluateRadial(sh: SphericalHarmonic, d: Vector, k: real, sqrt: real -> real)
    requires N.IsSqrt(sqrt) && LengthSquared(d) == 1.0 && d.w == 1.0 && k > 0.0
    ensures LengthSquared(MulScalar(d, k)) > 0.0
    ensures Evaluate(sh, MulScalar(d, k), sqrt) == k - N.Abs(sh.harmonic(d))
    ensures Evaluate(sh, MulScalar(d, k), sqrt) == 0.0 <==> k == N.Abs(sh.harmonic(d))
  {
    ScaledUnit(d, k, sqrt);
  }

  /** A unit direction scaled by `k > 0` has length `k` and normalises back to itself. */
  lemma ScaledUnit(d: Vector, k: real, sqrt: real -> real)
    requires N.IsSqrt(sqrt) && LengthSquared(d) == 1.0 && d.w == 1.0 && k > 0.0
    ensures LengthSquared(MulScalar(d, k)) > 0.0
    ensures Length(MulScalar(d, k), sqrt) == k && Normalize(MulScalar(d, k), sqrt) == d
  {
    var p := MulScalar(d, k);
    ScaledLength(d, k, sqrt);
    NormalizeByLength(p, sqrt, k);
    Unscale(d.x, d.y, d.z, k);
  }

  /** Scaling by `k > 0` multiplies the squared length by `k^2`, so a unit vector's
      length becomes `k`. */
  lemma ScaledLength(d: Vector, k: real, sqrt: real -> real)
    requires N.IsSqrt(sqrt) && LengthSquared(d) == 1.0 && k > 0.0
    ensures LengthSquared(MulScalar(d, k)) > 0.0
    ensures Length(MulScalar(d, k), sqrt) == k
  {
    ScaleSquares(d.x, d.y, d.z, k);
    N.MulPos(k, k);
    N.SqrtUnique(sqrt, LengthSquared(MulScalar(d, k)), k);
  }

  lemma ScaleSquares(x: real, y: real, z: real, k: real)
    ensures N.Sq(x * k) + N.Sq(y * k) + N.Sq(z * k) == (k * k) * (N.Sq(x) + N.Sq(y) + N.Sq(z))
  {
    assert N.Sq(x * k) == (k * k) * N.Sq(x);
    assert N.Sq(y * k) == (k * k) * N.Sq(y);
    assert N.Sq(z * k) == (k * k) * N.Sq(z);
  }

  lemma Unscale(x: real, y: real, z: real, k: real)
    requires k != 0.0
    ensures (x * k) / k == x && (y * k) / k == y && (z * k) / k == z
  {
  }
}
