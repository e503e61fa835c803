/** Numeric ground shared by the whole renderer model.

    Source doubles are modelled as `real`. Two places of the source divide by a
    ray direction component that may be zero (the slab tests and the k-d split
    plane); there the IEEE outcome matters, so those divisions produce a `Float`,
    which adds the two infinities and NaN to the reals, with the comparison and
    Math.Min/Math.Max semantics of .NET. Signed zero is not modelled. */
module Numeric {

  datatype Option<+T> = None | Some(value: T)

  type Positive = r: real | r > 0.0 witness 1.0

  /** Util.EPS, the self-intersection tolerance. Its value is not shown in the
      source, so it is an arbitrary positive constant here. */
  const EPS: Positive

  /** Util.INF, the half-extent of an unbounded shape's box: an arbitrary positive constant. */
  const INF: Positive

  /** Math.PI */
  const Pi: real := 3.141592653589793

  /** Math.Atan2 is a parameter too; what the model uses of it is its range: an angle in
      [-pi, pi], and in [-pi/2, pi/2] when the second argument is not negative. */
  ghost predicate IsAtan2(atan2: (real, real) -> real) {
    forall y, x :: -Pi <= atan2(y, x) <= Pi && (x >= 0.0 ==> -Pi / 2.0 <= atan2(y, x) <= Pi / 2.0)
  }

  /** Math.Sqrt is not definable on reals; members that need it take the square
      root as a parameter and require it to be one. */
  ghost predicate IsSqrt(sqrt: real -> real) {
    forall q :: q >= 0.0 ==> sqrt(q) >= 0.0 && sqrt(q) * sqrt(q) == q
  }

  /** A non-negative root is unique, so any root a proof exhibits is the one `sqrt` returns. */
  lemma SqrtUnique(sqrt: real -> real, q: real, s: real)
    requires IsSqrt(sqrt) && s >= 0.0 && s * s == q
    ensures sqrt(q) == s
  {
    var t := sqrt(q);
    assert t >= 0.0 && t * t == q;
    if t < s {
      SquareStrict(t, s);
    } else if s < t {
      SquareStrict(s, t);
    }
  }

  /** The two square roots of `s * s` are `s` and `-s`. */
  lemma SquareRoots(x: real, s: real)
    requires s >= 0.0 && x * x == s * s
    ensures x == s || x == -s
  {
    if x >= 0.0 {
      if x < s { SquareStrict(x, s); } else if s < x { SquareStrict(s, x); }
    } else {
      if -x < s { SquareStrict(-x, s); } else if s < -x { SquareStrict(s, -x); }
    }
  }

  /** Squaring is strictly increasing on the non-negative reals. */
  lemma SquareStrict(a: real, b: real)
    requires 0.0 <= a < b
    ensures a * a < b * b
  {
    var d, e := b - a, b + a;
    assert d > 0.0 && e > 0.0;
    assert d * e > 0.0;
    assert b * b - a * a == d * e;
  }

  /** `x * y` behind a name. The solver normalises a product that occurs in a hypothesis
      but not one that a function definition introduces, so facts about products are
      stated on `Product` and `Sq` to reach callers in the form their unfoldings take. */
  function Product(x: real, y: real): real {
    x * y
  }

  /** `a * a` behind a name, for the same reason as `Product`. */
  function Sq(a: real): real {
    a * a
  }

  /** A product of two positive reals is positive. */
  lemma MulPos(x: real, y: real)
    requires x > 0.0 && y > 0.0
    ensures Product(x, y) > 0.0 && x * y > 0.0
  {
  }

  /** A product of non-zero reals is non-zero. */
  lemma MulNonZero(x: real, y: real)
    requires x != 0.0 && y != 0.0
    ensures x * y != 0.0
  {
    if x > 0.0 && y > 0.0 {
      MulPos(x, y);
    } else if x > 0.0 {
      MulPos(x, -y);
    } else if y > 0.0 {
      MulPos(-x, y);
    } else {
      MulPos(-x, -y);
    }
  }

  /** A non-zero real divided by itself is one. */
  lemma SelfDivision(d: real)
    requires d != 0.0
    ensures d / d == 1.0
  {
  }

  /** A square is non-negative, and zero only at zero. */
  lemma SquareNonNegative(a: real)
    ensures Sq(a) >= 0.0
    ensures a != 0.0 ==> Sq(a) > 0.0
  {
    if a < 0.0 {
      MulPos(-a, -a);
    } else if a > 0.0 {
      MulPos(a, a);
    }
  }

  /** A sum of three squares is non-negative, and positive unless all three are zero. */
  lemma SumOfSquares(a: real, b: real, c: real)
    ensures Sq(a) + Sq(b) + Sq(c) >= 0.0
    ensures a != 0.0 || b != 0.0 || c != 0.0 ==> Sq(a) + Sq(b) + Sq(c) > 0.0
  {
    SquareNonNegative(a);
    SquareNonNegative(b);
    SquareNonNegative(c);
  }

  /** `(p - q b)^2` expanded. */
  lemma SquareOfDifference(p: real, q: real, b: real)
    ensures (p - q * b) * (p - q * b) == p * p - 2.0 * b * (p * q) + b * b * (q * q)
  {
  }

  /** `(p a + q b)^2` expanded. */
  lemma SquareOfSum(p: real, q: real, a: real, b: real)
    ensures (p * a + q * b) * (p * a + q * b) == a * a * (p * p) + 2.0 * a * b * (p * q) + b * b * (q * q)
  {
  }

  /** Math.Abs */
  function Abs(x: real): (r: real)
    ensures r >= 0.0 && (r == x || r == -x)
  {
    if x < 0.0 then -x else x
  }

  /** Math.Min on finite doubles */
  function Min(a: real, b: real): (r: real)
    ensures r <= a && r <= b && (r == a || r == b)
  {
    if a <= b then a else b
  }

  /** Math.Max on finite doubles */
  function Max(a: real, b: real): (r: real)
    ensures r >= a && r >= b && (r == a || r == b)
  {
    if a >= b then a else b
  }

  /** A double that may be infinite or NaN. */
  datatype Float = Num(v: real) | PosInf | NegInf | NaN

  /** IEEE division of two finite doubles (the zero divisor is taken as +0). */
  function Div(a: real, b: real): (r: Float)
    ensures b != 0.0 ==> r == Num(a / b)
    ensures b == 0.0 ==> (r == PosInf <==> a > 0.0) && (r == NegInf <==> a < 0.0) && (r == NaN <==> a == 0.0)
  {
    if b != 0.0 then Num(a / b)
    else if a > 0.0 then PosInf
    else if a < 0.0 then NegInf
    else NaN
  }

  /** `a < b`; false whenever either side is NaN. */
  predicate Less(a: Float, b: Float) {
    !a.NaN? && !b.NaN? &&
    ((a.NegInf? && !b.NegInf?) || (b.PosInf? && !a.PosInf?) || (a.Num? && b.Num? && a.v < b.v))
  }

  /** `a <= b`; false whenever either side is NaN. */
  predicate LessEq(a: Float, b: Float) {
    Less(a, b) || (!a.NaN? && a == b)
  }

  /** On non-NaN values `Less` is a strict total order, and `LessEq` is its reflexive closure. */
  lemma LessTotal(a: Float, b: Float)
    requires !a.NaN? && !b.NaN?
    ensures Less(a, b) || a == b || Less(b, a)
    ensures !(Less(a, b) && Less(b, a))
    ensures LessEq(a, b) <==> !Less(b, a)
  {
  }

  /** The two orders chain. */
  lemma LessTransitive(a: Float, b: Float, c: Float)
    ensures Less(a, b) && LessEq(b, c) ==> Less(a, c)
    ensures LessEq(a, b) && Less(b, c) ==> Less(a, c)
    ensures LessEq(a, b) && LessEq(b, c) ==> LessEq(a, c)
  {
  }

  /** Math.Max(double, double): NaN when either argument is NaN, otherwise the larger. */
  function FMax(a: Float, b: Float): (r: Float)
    ensures r.NaN? <==> (a.NaN? || b.NaN?)
    ensures !r.NaN? ==> LessEq(a, r) && LessEq(b, r) && (r == a || r == b)
  {
    if a.NaN? || b.NaN? then NaN
    else if Less(a, b) then b else a
  }

  /** Math.Min(double, double): NaN when either argument is NaN, otherwise the smaller. */
  function FMin(a: Float, b: Float): (r: Float)
    ensures r.NaN? <==> (a.NaN? || b.NaN?)
    ensures !r.NaN? ==> LessEq(r, a) && LessEq(r, b) && (r == a || r == b)
  {
    if a.NaN? || b.NaN? then NaN
    else if Less(b, a) then b else a
  }

  /** The interval test the k-d traversal prunes with: `t` is not below `lo` and not
      above `hi`. A NaN bound excludes nothing, because every comparison with NaN is false. */
  predicate Within(t: real, lo: Float, hi: Float) {
    !Less(Num(t), lo) && !Less(hi, Num(t))
  }

  /** Which of `x` and `y` comes first after the source's `if (x > y) swap`. */
  function Ordered(x: Float, y: Float): (p: (Float, Float))
    ensures !Less(p.1, p.0)
    ensures (p == (x, y)) || (p == (y, x))
  {
    if Less(y, x) then (y, x) else (x, y)
  }
}
