/** The renderer's four-component vector value (Vector.cs).

    The three-argument constructor sets `w` to 1, the parameterless one leaves
    every component 0. The named methods (`Add`, `Sub`, `Cross`, ...) build
    their result with the three-argument constructor, so their `w` is 1; the
    operators `+`/`-` act on all four components and the scalar operators keep
    the operand's `w`. */
module Vectors {
  import N = Numeric

  datatype Vector = Vector(x: real, y: real, z: real, w: real)

  /** `new Vector()`: every component zero, `w` included. */
  const Zero: Vector := Vector(0.0, 0.0, 0.0, 0.0)

  /** The three-argument constructor. */
  function V3(x: real, y: real, z: real): Vector {
    Vector(x, y, z, 1.0)
  }

  /** `Vector.ORIGIN` */
  const Origin: Vector := V3(0.0, 0.0, 0.0)

  /** The same point with `w` reset to 1, as every named method returns it. */
  function Point(v: Vector): Vector {
    V3(v.x, v.y, v.z)
  }

  // ---- operators ----

  /** `a + v`, on all four components. */
  function Plus(a: Vector, v: Vector): Vector {
    Vector(a.x + v.x, a.y + v.y, a.z + v.z, a.w + v.w)
  }

  /** `a - v`, on all four components. */
  function Minus(a: Vector, v: Vector): Vector {
    Vector(a.x - v.x, a.y - v.y, a.z - v.z, a.w - v.w)
  }

  /** `c * v` and `v * c`: scales x, y, z and keeps `w`. */
  function Times(c: real, v: Vector): Vector {
    Vector(c * v.x, c * v.y, c * v.z, v.w)
  }

  /** `-v`: negates x, y, z and keeps `w`. */
  function Neg(v: Vector): Vector {
    Vector(-v.x, -v.y, -v.z, v.w)
  }

  /** `a ^ v`: the cross product of x, y, z, keeping the left operand's `w`. */
  function Caret(a: Vector, v: Vector): Vector {
    Vector(a.y * v.z - a.z * v.y, a.z * v.x - a.x * v.z, a.x * v.y - a.y * v.x, a.w)
  }

  /** `a % v`: the componentwise product on all four components. */
  function Percent(a: Vector, v: Vector): Vector {
    Vector(a.x * v.x, a.y * v.y, a.z * v.z, a.w * v.w)
  }

  /** `a / c`: divides x, y, z and keeps `w`. A zero `c` gives IEEE infinities or NaN in
      the source, which the model does not represent, so it is excluded. */
  function Over(a: Vector, c: real): Vector
    requires c != 0.0
  {
    Vector(a.x / c, a.y / c, a.z / c, a.w)
  }

  /** The remaining operators against the named methods: `a * v` on two vectors is `Dot`,
      `v * c` is `c * v`, unary `+` returns its operand; `^`, `%` and `/` agree with
      `Cross`, `Mul` and `DivScalar` on x, y, z but not on `w`, which `^` and `/` take from
      the left operand and `%` multiplies, where the named methods give 1. Scalar `/`
      undoes scalar `*`, `w` included, and `^` anti-commutes exactly when the `w`s agree. */
  lemma OtherOperators(a: Vector, v: Vector, c: real)
    ensures Point(Caret(a, v)) == Cross(a, v) && Caret(a, v).w == a.w
    ensures Point(Percent(a, v)) == Mul(a, v) && Percent(a, v).w == a.w * v.w
    ensures c != 0.0 ==> Point(Over(a, c)) == DivScalar(a, c) && Over(a, c).w == a.w
    ensures c != 0.0 ==> Over(Times(c, a), c) == a && Times(c, Over(a, c)) == a
    ensures Caret(a, v) == Neg(Caret(v, a)) <==> a.w == v.w
  {
  }

  /** `+` and `-` on all four components undo each other; unary minus is an involution. */
  lemma OperatorInverses(a: Vector, v: Vector)
    ensures Minus(Plus(a, v), v) == a && Plus(Minus(a, v), v) == a
    ensures Neg(Neg(a)) == a
    ensures Times(1.0, a) == a
  {
  }

  // ---- named methods ----

  /** `Dot`, which is also the `*` operator on two vectors. */
  function Dot(a: Vector, b: Vector): real {
    a.x * b.x + a.y * b.y + a.z * b.z
  }

  function Cross(a: Vector, b: Vector): Vector {
    V3(a.y * b.z - a.z * b.y, a.z * b.x - a.x * b.z, a.x * b.y - a.y * b.x)
  }

  function Negate(v: Vector): Vector {
    V3(-v.x, -v.y, -v.z)
  }

  function Add(a: Vector, b: Vector): Vector {
    V3(a.x + b.x, a.y + b.y, a.z + b.z)
  }

  function Sub(a: Vector, b: Vector): Vector {
    V3(a.x - b.x, a.y - b.y, a.z - b.z)
  }

  function Mul(a: Vector, b: Vector): Vector {
    V3(a.x * b.x, a.y * b.y, a.z * b.z)
  }

  /** Componentwise division. A zero component of `b` gives an IEEE infinity or NaN in the
      source, which the model does not represent, so it is excluded. */
  function Div(a: Vector, b: Vector): Vector
    requires b.x != 0.0 && b.y != 0.0 && b.z != 0.0
  {
    V3(a.x / b.x, a.y / b.y, a.z / b.z)
  }

  function AddScalar(a: Vector, b: real): Vector {
    V3(a.x + b, a.y + b, a.z + b)
  }

  function SubScalar(a: Vector, b: real): Vector {
    V3(a.x - b, a.y - b, a.z - b)
  }

  function MulScalar(a: Vector, b: real): Vector {
    V3(a.x * b, a.y * b, a.z * b)
  }

  function DivScalar(a: Vector, b: real): Vector
    requires b != 0.0
  {
    V3(a.x / b, a.y / b, a.z / b)
  }

  /** `Add` and `Sub`, `Mul` and `Div`, `AddScalar` and `SubScalar` undo each other up to
      `w`, which every named method resets to 1. */
  lemma NamedInverses(a: Vector, b: Vector, c: real)
    ensures Sub(Add(a, b), b) == Point(a) && Add(Sub(a, b), b) == Point(a)
    ensures b.x != 0.0 && b.y != 0.0 && b.z != 0.0 ==> Div(Mul(a, b), b) == Point(a)
    ensures SubScalar(AddScalar(a, c), c) == Point(a)
    ensures c != 0.0 ==> DivScalar(MulScalar(a, c), c) == Point(a)
    ensures Negate(Negate(a)) == Point(a)
  {
  }

  /** The named methods all build their result with the three-argument constructor, while
      the operators keep (scalar) or combine (`+`, `-`) the operands' `w`. */
  lemma WComponent(a: Vector, b: Vector, c: real)
    ensures Add(a, b).w == 1.0 && Sub(a, b).w == 1.0 && Mul(a, b).w == 1.0 && Cross(a, b).w == 1.0
    ensures Min(a, b).w == 1.0 && Max(a, b).w == 1.0 && MulScalar(a, c).w == 1.0
    ensures Plus(a, b).w == a.w + b.w && Minus(a, b).w == a.w - b.w
    ensures Times(c, a).w == a.w && Neg(a).w == a.w
  {
  }

  function Min(a: Vector, b: Vector): (r: Vector)
    ensures r.x <= a.x && r.x <= b.x && (r.x == a.x || r.x == b.x)
    ensures r.y <= a.y && r.y <= b.y && (r.y == a.y || r.y == b.y)
    ensures r.z <= a.z && r.z <= b.z && (r.z == a.z || r.z == b.z)
    ensures r.w == 1.0
  {
    V3(N.Min(a.x, b.x), N.Min(a.y, b.y), N.Min(a.z, b.z))
  }

  function Max(a: Vector, b: Vector): (r: Vector)
    ensures r.x >= a.x && r.x >= b.x && (r.x == a.x || r.x == b.x)
    ensures r.y >= a.y && r.y >= b.y && (r.y == a.y || r.y == b.y)
    ensures r.z >= a.z && r.z >= b.z && (r.z == a.z || r.z == b.z)
    ensures r.w == 1.0
  {
    V3(N.Max(a.x, b.x), N.Max(a.y, b.y), N.Max(a.z, b.z))
  }

  /** `a <= b` on x, y and z. */
  predicate LessEq(a: Vector, b: Vector) {
    a.x <= b.x && a.y <= b.y && a.z <= b.z
  }

  /** `Min` and `Max` are the meet and join of the componentwise order. */
  lemma MinMaxOrder(a: Vector, b: Vector, c: Vector)
    ensures LessEq(Min(a, b), a) && LessEq(Min(a, b), b)
    ensures LessEq(a, Max(a, b)) && LessEq(b, Max(a, b))
    ensures LessEq(c, a) && LessEq(c, b) ==> LessEq(c, Min(a, b))
    ensures LessEq(a, c) && LessEq(b, c) ==> LessEq(Max(a, b), c)
  {
  }

  /** The unit axis along which `v` is smallest in absolute value; ties go to x, then y. */
  function MinAxis(v: Vector): (r: Vector)
    ensures r == V3(1.0, 0.0, 0.0) || r == V3(0.0, 1.0, 0.0) || r == V3(0.0, 0.0, 1.0)
    ensures r == V3(1.0, 0.0, 0.0) <==> N.Abs(v.x) <= N.Abs(v.y) && N.Abs(v.x) <= N.Abs(v.z)
    ensures r == V3(0.0, 1.0, 0.0) <==>
      !(N.Abs(v.x) <= N.Abs(v.y) && N.Abs(v.x) <= N.Abs(v.z)) && N.Abs(v.y) <= N.Abs(v.z)
    ensures Dot(r, V3(N.Abs(v.x), N.Abs(v.y), N.Abs(v.z))) <= N.Abs(v.x)
    ensures Dot(r, V3(N.Abs(v.x), N.Abs(v.y), N.Abs(v.z))) <= N.Abs(v.y)
    ensures Dot(r, V3(N.Abs(v.x), N.Abs(v.y), N.Abs(v.z))) <= N.Abs(v.z)
  {
    var (x, y, z) := (N.Abs(v.x), N.Abs(v.y), N.Abs(v.z));
    if x <= y && x <= z then V3(1.0, 0.0, 0.0)
    else if y <= x && y <= z then V3(0.0, 1.0, 0.0)
    else V3(0.0, 0.0, 1.0)
  }

  function MinComponent(v: Vector): (r: real)
    ensures r <= v.x && r <= v.y && r <= v.z
    ensures r == v.x || r == v.y || r == v.z
  {
    N.Min(N.Min(v.x, v.y), v.z)
  }

  function MaxComponent(v: Vector): (r: real)
    ensures r >= v.x && r >= v.y && r >= v.z
    ensures r == v.x || r == v.y || r == v.z
  {
    N.Max(N.Max(v.x, v.y), v.z)
  }

  /** The squared length `x*x + y*y + z*z`. */
  function LengthSquared(v: Vector): (r: real)
    ensures r >= 0.0
  {
    N.SumOfSquares(v.x, v.y, v.z);
    N.Sq(v.x) + N.Sq(v.y) + N.Sq(v.z)
  }

  /** Only the zero vector has zero length. */
  lemma LengthSquaredPositive(v: Vector)
    requires v.x != 0.0 || v.y != 0.0 || v.z != 0.0
    ensures LengthSquared(v) > 0.0
  {
    N.SumOfSquares(v.x, v.y, v.z);
  }

  /** The squared length is the vector's dot product with itself. */
  lemma LengthSquaredDot(v: Vector)
    ensures LengthSquared(v) == Dot(v, v)
  {
  }

  function Length(v: Vector, sqrt: real -> real): real {
    sqrt(LengthSquared(v))
  }

  /** `v / |v|`. The zero vector would divide by zero (NaN in the source) and is excluded. */
  function Normalize(v: Vector, sqrt: real -> real): (r: Vector)
    requires N.IsSqrt(sqrt)
    requires LengthSquared(v) > 0.0
    ensures LengthSquared(r) == 1.0
    ensures r.w == 1.0
    ensures exists k: real :: k > 0.0 && r == MulScalar(v, k)
  {
    var d := Length(v, sqrt);
    assert d * d == LengthSquared(v);
    assert d > 0.0;
    var k := 1.0 / d;
    var r := V3(v.x / d, v.y / d, v.z / d);
    assert r == MulScalar(v, k);
    assert LengthSquared(r) == (k * k) * LengthSquared(v);
    assert (k * k) * (d * d) == (k * d) * (k * d);
    r
  }

  /** A vector of known length `s` normalises to its components divided by `s`. */
  lemma NormalizeByLength(v: Vector, sqrt: real -> real, s: real)
    requires N.IsSqrt(sqrt) && LengthSquared(v) > 0.0 && Length(v, sqrt) == s
    ensures s > 0.0 && Normalize(v, sqrt) == V3(v.x / s, v.y / s, v.z / s)
  {
    assert s * s == LengthSquared(v);
  }

  /** `Dot` is symmetric and `Cross(a, b)` is orthogonal to both `a` and `b`. */
  lemma DotCross(a: Vector, b: Vector)
    ensures Dot(a, b) == Dot(b, a)
    ensures Dot(a, Cross(a, b)) == 0.0 && Dot(b, Cross(a, b)) == 0.0
    ensures Cross(a, b) == Negate(Cross(b, a))
  {
  }

  /** `n.Reflect(i) = i - 2 (n . i) n`. */
  function Reflect(n: Vector, i: Vector): Vector {
    Sub(i, MulScalar(n, 2.0 * Dot(n, i)))
  }

  /** Reflecting about a unit normal flips the component along the normal, keeps the length,
      and reflecting twice gives the incoming direction back. */
  lemma ReflectProperties(n: Vector, i: Vector)
    requires LengthSquared(n) == 1.0
    ensures Dot(n, Reflect(n, i)) == -Dot(n, i)
    ensures LengthSquared(Reflect(n, i)) == LengthSquared(i)
    ensures Reflect(n, Reflect(n, i)) == Point(i)
  {
    var k := Dot(n, i);
    var b := 2.0 * k;
    var r := Reflect(n, i);
    DotSubScaled(n, i, n, b);
    assert Dot(n, r) == k - b * 1.0;
    LengthSubScaled(i, n, b);
    assert Dot(i, n) == k;
    assert LengthSquared(r) == LengthSquared(i) - b * k + b * b * 1.0 - b * k;
    assert b * b == 2.0 * b * k;
    assert Reflect(n, r) == Sub(r, MulScalar(n, -b));
  }

  /** The dot product with `u - b v`. */
  lemma DotSubScaled(w: Vector, u: Vector, v: Vector, b: real)
    ensures Dot(w, Sub(u, MulScalar(v, b))) == Dot(w, u) - b * Dot(w, v)
  {
  }

  /** The squared length of `u - b v`. */
  lemma LengthSubScaled(u: Vector, v: Vector, b: real)
    ensures LengthSquared(Sub(u, MulScalar(v, b))) == LengthSquared(u) - 2.0 * b * Dot(u, v) + b * b * LengthSquared(v)
  {
    N.SquareOfDifference(u.x, v.x, b);
    N.SquareOfDifference(u.y, v.y, b);
    N.SquareOfDifference(u.z, v.z, b);
  }

  /** `sinT2 > 1` decides total internal reflection. */
  function SinT2(n: Vector, i: Vector, n1: real, n2: real): real
    requires n2 != 0.0
  {
    var nr := n1 / n2;
    var cosI := -Dot(n, i);
    nr * nr * (1.0 - cosI * cosI)
  }

  /** `n.Refract(i, n1, n2)`: the zero vector under total internal reflection, otherwise
      Snell's law with `nr = n1/n2`. */
  function Refract(n: Vector, i: Vector, n1: real, n2: real, sqrt: real -> real): (r: Vector)
    requires n2 != 0.0
    ensures SinT2(n, i, n1, n2) > 1.0 <==> r == Zero
  {
    var nr := n1 / n2;
    var cosI := -Dot(n, i);
    var sinT2 := SinT2(n, i, n1, n2);
    if sinT2 > 1.0 then Zero
    else
      var cosT := sqrt(1.0 - sinT2);
      Add(MulScalar(i, nr), MulScalar(n, nr * cosI - cosT))
  }

  /** Outside total internal reflection, refracting a unit direction about a unit normal
      yields a unit direction. */
  lemma RefractUnit(n: Vector, i: Vector, n1: real, n2: real, sqrt: real -> real)
    requires N.IsSqrt(sqrt) && n2 != 0.0
    requires LengthSquared(n) == 1.0 && LengthSquared(i) == 1.0
    requires SinT2(n, i, n1, n2) <= 1.0
    ensures LengthSquared(Refract(n, i, n1, n2, sqrt)) == 1.0
  {
    var nr := n1 / n2;
    var cosI := -Dot(n, i);
    var sinT2 := SinT2(n, i, n1, n2);
    var cosT := sqrt(1.0 - sinT2);
    assert cosT * cosT == 1.0 - sinT2;
    var c := nr * cosI - cosT;
    var r := Add(MulScalar(i, nr), MulScalar(n, c));
    assert r == Refract(n, i, n1, n2, sqrt);
    LengthOfCombination(i, n, nr, c);
    calc {
      LengthSquared(r);
      nr * nr * LengthSquared(i) + 2.0 * nr * c * Dot(i, n) + c * c * LengthSquared(n);
      nr * nr - 2.0 * nr * c * cosI + c * c;
      nr * nr * (1.0 - cosI * cosI) + cosT * cosT;
      1.0;
    }
  }

  /** The squared length of `a u + b v`. */
  lemma LengthOfCombination(u: Vector, v: Vector, a: real, b: real)
    ensures LengthSquared(Add(MulScalar(u, a), MulScalar(v, b)))
         == a * a * LengthSquared(u) + 2.0 * a * b * Dot(u, v) + b * b * LengthSquared(v)
  {
    N.SquareOfSum(u.x, v.x, a, b);
    N.SquareOfSum(u.y, v.y, a, b);
    N.SquareOfSum(u.z, v.z, a, b);
  }

  /** The divisions of `Reflectance` are by non-zero numbers. */
  predicate ReflectanceDefined(n: Vector, i: Vector, n1: real, n2: real, sqrt: real -> real) {
    n2 != 0.0 &&
    (SinT2(n, i, n1, n2) <= 1.0 ==>
      var cosI := -Dot(n, i);
      var cosT := sqrt(1.0 - SinT2(n, i, n1, n2));
      n1 * cosI + n2 * cosT != 0.0 && n2 * cosI + n1 * cosT != 0.0)
  }

  /** Fresnel reflectance: 1 under total internal reflection, otherwise the mean of the
      squared perpendicular and parallel amplitude ratios. A zero denominator (NaN in the
      source) is excluded. */
  function Reflectance(n: Vector, i: Vector, n1: real, n2: real, sqrt: real -> real): (r: real)
    requires ReflectanceDefined(n, i, n1, n2, sqrt)
    ensures SinT2(n, i, n1, n2) > 1.0 ==> r == 1.0
  {
    var nr := n1 / n2;
    var cosI := -Dot(n, i);
    var sinT2 := SinT2(n, i, n1, n2);
    if sinT2 > 1.0 then 1.0
    else
      var cosT := sqrt(1.0 - sinT2);
      var rOrth := (n1 * cosI - n2 * cosT) / (n1 * cosI + n2 * cosT);
      var rPar := (n2 * cosI - n1 * cosT) / (n2 * cosI + n1 * cosT);
      (rOrth * rOrth + rPar * rPar) / 2.0
  }

  /** For positive indices and a direction meeting the surface from its front side
      (`cos i > 0`), the reflectance is a probability. */
  lemma ReflectanceBounds(n: Vector, i: Vector, n1: real, n2: real, sqrt: real -> real)
    requires N.IsSqrt(sqrt) && n1 > 0.0 && n2 > 0.0 && Dot(n, i) < 0.0
    ensures ReflectanceDefined(n, i, n1, n2, sqrt)
    ensures 0.0 <= Reflectance(n, i, n1, n2, sqrt) <= 1.0
  {
    var nr := n1 / n2;
    var cosI := -Dot(n, i);
    var sinT2 := SinT2(n, i, n1, n2);
    if sinT2 <= 1.0 {
      var cosT := sqrt(1.0 - sinT2);
      assert cosT >= 0.0;
      RatioBound(n1 * cosI, n2 * cosT);
      RatioBound(n2 * cosI, n1 * cosT);
    }
  }

  /** `((a - b) / (a + b))^2` lies in [0, 1] for `a > 0` and `b >= 0`. */
  lemma RatioBound(a: real, b: real)
    requires a > 0.0 && b >= 0.0
    ensures 0.0 <= ((a - b) / (a + b)) * ((a - b) / (a + b)) <= 1.0
  {
    var q := (a - b) / (a + b);
    assert q * (a + b) == a - b;
    assert -1.0 <= q <= 1.0;
    N.SquareNonNegative(q);
    if q >= 0.0 {
      assert q * q <= q;
    } else {
      assert q * q <= -q;
    }
  }
}
