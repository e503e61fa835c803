/** `Ray.Bounce` (Ray.cs): how a path continues at a hit. The random parts are parameters:
    `rnd` is the uniform draw in [0, 1) that decides a reflection, `cone` stands for
    `ConeBounce(theta, u, v, rand)` (a ray and the cone angle give the jittered ray) and
    `weighted` for `WeightedBounce(u, v, rand)`. */
module Bounces {
  import N = Numeric
  import opened Vectors
  import R = Rays
  import M = Materials
  import H = Hits
  import C = Colours

  datatype BounceType = BounceTypeAny | BounceTypeDiffuse | BounceTypeSpecular

  /** The refractive indices `(n1, n2)` on the two sides of the surface as the source
      computes them: outside, from air (1) into the material; inside, the source calls
      `Interlocked.Exchange(ref n1, n2)`, which stores `n2` into `n1` and so makes both
      equal to the material's index. */
  function IndicesAsWritten(inside: bool, index: real): (ns: (real, real))
    ensures inside ==> ns.0 == ns.1
    ensures !inside ==> ns == (1.0, index)
  {
    if inside then (index, index) else (1.0, index)
  }

  /** The intended indices: inside, the ray leaves the material for air, so they swap. */
  function Indices(inside: bool, index: real): (ns: (real, real))
    ensures inside ==> ns == (index, 1.0)
    ensures !inside ==> ns == (1.0, index)
    ensures ns.0 == 1.0 || ns.1 == 1.0
  {
    if inside then (index, 1.0) else (1.0, index)
  }

  /** As written, a ray inside a transparent object never meets total internal reflection:
      both indices are the same, so `sin^2 t = 1 - cos^2 i` is at most 1. */
  lemma {:induction false} AsWrittenNoTotalReflection(n: Vector, i: Vector, index: real)
    requires index != 0.0
    ensures var ns := IndicesAsWritten(true, index); SinT2(n, i, ns.0, ns.1) <= 1.0
  {
    var c := -Dot(n, i);
    N.SquareNonNegative(c);
    assert index / index == 1.0;
  }

  /** ... and it passes straight on: refracting with equal indices keeps a direction that
      meets the unit normal from its front side. */
  lemma AsWrittenStraightThrough(n: Vector, i: Vector, index: real, sqrt: real -> real)
    requires N.IsSqrt(sqrt) && index != 0.0 && Dot(n, i) <= 0.0
    ensures var ns := IndicesAsWritten(true, index); Refract(n, i, ns.0, ns.1, sqrt) == Point(i)
  {
    var c := -Dot(n, i);
    assert index / index == 1.0;
    AsWrittenNoTotalReflection(n, i, index);
    assert 1.0 - SinT2(n, i, index, index) == c * c;
    N.SqrtUnique(sqrt, c * c, c);
  }

  /** With the swap, a ray grazing the inside of glass (index 1.5) is totally reflected:
      `Reflectance` is 1 and `Refract` gives the zero vector. */
  lemma IntendedTotalReflection(sqrt: real -> real)
    ensures var n := V3(0.0, 0.0, 1.0); var i := V3(1.0, 0.0, 0.0);
      var ns := Indices(true, 1.5);
      && SinT2(n, i, ns.0, ns.1) > 1.0
      && Reflectance(n, i, ns.0, ns.1, sqrt) == 1.0
      && Refract(n, i, ns.0, ns.1, sqrt) == Zero
    ensures var n := V3(0.0, 0.0, 1.0); var i := V3(1.0, 0.0, 0.0);
      var ns := IndicesAsWritten(true, 1.5);
      SinT2(n, i, ns.0, ns.1) == 1.0
  {
  }

  /** For indices `n1, n2` with a non-zero `n2`, Bounce's divisions are defined when the
      material overrides the Fresnel term or the reflectance is defined. */
  predicate Defined(n: R.Ray, r: R.Ray, m: M.Material, ns: (real, real), sqrt: real -> real) {
    ns.1 != 0.0 && (m.reflectivity < 0.0 ==> ReflectanceDefined(n.direction, r.direction, ns.0, ns.1, sqrt))
  }

  /** The probability of the reflected branch: the material's reflectivity when it sets one,
      otherwise the Fresnel reflectance. */
  function Probability(n: R.Ray, r: R.Ray, m: M.Material, ns: (real, real), sqrt: real -> real): real
    requires Defined(n, r, m, ns, sqrt)
  {
    if m.reflectivity >= 0.0 then m.reflectivity
    else R.Reflectance(n, r, ns.0, ns.1, sqrt)
  }

  /** Whether the bounce takes the mirror branch: a draw below `p` for `BounceTypeAny`,
      never for `BounceTypeDiffuse`, always for `BounceTypeSpecular`. */
  predicate Reflects(bounceType: BounceType, rnd: real, p: real) {
    match bounceType
    case BounceTypeAny => rnd < p
    case BounceTypeDiffuse => false
    case BounceTypeSpecular => true
  }

  /** The three branches of `Bounce` for given indices `ns`. */
  function Outcome<S>(r: R.Ray, info: H.HitInfo<S>, ns: (real, real), rnd: real, bounceType: BounceType,
                      cone: (R.Ray, real) -> R.Ray, weighted: R.Ray -> R.Ray,
                      sqrt: real -> real): (R.Ray, bool, real)
    requires Defined(info.ray, r, info.material, ns, sqrt)
  {
    var n := info.ray;
    var m := info.material;
    var p := Probability(n, r, m, ns, sqrt);
    if Reflects(bounceType, rnd, p) then
      (cone(R.Reflect(n, r), m.gloss), true, p)
    else if m.transparent then
      var refracted := R.Refract(n, r, ns.0, ns.1, sqrt);
      var moved := R.Ray(Add(refracted.origin, MulScalar(refracted.direction, 0.0001)), refracted.direction);
      (cone(moved, m.gloss), true, 1.0 - p)
    else
      (weighted(n), false, 1.0 - p)
  }

  /** What a bounce with indices `ns` returns: the weight is the probability of the branch
      taken; the bounce is specular exactly when it reflects or refracts; a reflection is
      the cone around the mirror ray, a refraction the cone around the refracted ray pushed
      `1e-4` along its direction, and anything else the weighted diffuse ray. */
  predicate Outcomes<S>(res: (R.Ray, bool, real), r: R.Ray, info: H.HitInfo<S>, ns: (real, real), rnd: real,
                        bounceType: BounceType, cone: (R.Ray, real) -> R.Ray, weighted: R.Ray -> R.Ray,
                        sqrt: real -> real)
    requires Defined(info.ray, r, info.material, ns, sqrt)
  {
    var m := info.material; var n := info.ray;
    var p := Probability(n, r, m, ns, sqrt);
    var reflect := Reflects(bounceType, rnd, p);
    && res.2 == (if reflect then p else 1.0 - p)
    && res.1 == (reflect || m.transparent)
    && (reflect ==> res.0 == cone(R.Reflect(n, r), m.gloss))
    && (!reflect && m.transparent ==>
          var t := R.Refract(n, r, ns.0, ns.1, sqrt);
          res.0 == cone(R.Ray(R.Position(t, 0.0001), t.direction), m.gloss))
    && (!reflect && !m.transparent ==> res.0 == weighted(n))
  }

  /** `r.Bounce(info, u, v, bounceType, rand)` as written: the next ray, whether it was a
      specular bounce, and the probability weight of the branch taken, with the indices
      `IndicesAsWritten` (both equal to the material's index inside it). */
  function Bounce<S>(r: R.Ray, info: H.HitInfo<S>, rnd: real, bounceType: BounceType,
                     cone: (R.Ray, real) -> R.Ray, weighted: R.Ray -> R.Ray,
                     sqrt: real -> real): (res: (R.Ray, bool, real))
    requires Defined(info.ray, r, info.material, IndicesAsWritten(info.inside, info.material.index), sqrt)
    ensures Outcomes(res, r, info, IndicesAsWritten(info.inside, info.material.index), rnd, bounceType,
                     cone, weighted, sqrt)
  {
    Outcome(r, info, IndicesAsWritten(info.inside, info.material.index), rnd, bounceType, cone, weighted, sqrt)
  }

  /** The intended `Bounce`, with the indices swapped inside a material. It agrees with the
      source on every hit from outside. */
  function BounceIntended<S>(r: R.Ray, info: H.HitInfo<S>, rnd: real, bounceType: BounceType,
                             cone: (R.Ray, real) -> R.Ray, weighted: R.Ray -> R.Ray,
                             sqrt: real -> real): (res: (R.Ray, bool, real))
    requires Defined(info.ray, r, info.material, Indices(info.inside, info.material.index), sqrt)
    ensures Outcomes(res, r, info, Indices(info.inside, info.material.index), rnd, bounceType,
                     cone, weighted, sqrt)
    ensures !info.inside ==> res == Bounce(r, info, rnd, bounceType, cone, weighted, sqrt)
  {
    Outcome(r, info, Indices(info.inside, info.material.index), rnd, bounceType, cone, weighted, sqrt)
  }

  /** A ray meeting the front of a surface with a positive index (the normal of every
      `Hit.Info` faces the ray) leaves both versions of Bounce defined, and the branch
      probability of a Fresnel material is then a probability. */
  lemma BounceDefined(n: R.Ray, r: R.Ray, m: M.Material, inside: bool, sqrt: real -> real)
    requires N.IsSqrt(sqrt) && m.index > 0.0 && Dot(n.direction, r.direction) < 0.0
    ensures Defined(n, r, m, IndicesAsWritten(inside, m.index), sqrt)
    ensures Defined(n, r, m, Indices(inside, m.index), sqrt)
    ensures m.reflectivity < 0.0 ==> 0.0 <= Probability(n, r, m, IndicesAsWritten(inside, m.index), sqrt) <= 1.0
    ensures m.reflectivity < 0.0 ==> 0.0 <= Probability(n, r, m, Indices(inside, m.index), sqrt) <= 1.0
  {
    var ns := Indices(inside, m.index);
    ReflectanceBounds(n.direction, r.direction, ns.0, ns.1, sqrt);
    var ws := IndicesAsWritten(inside, m.index);
    ReflectanceBounds(n.direction, r.direction, ws.0, ws.1, sqrt);
  }

  /** A metal (reflectivity 1) reflects on every draw below 1, with weight 1, whatever the
      indices. */
  lemma MetalReflects<S>(r: R.Ray, info: H.HitInfo<S>, rnd: real,
                         cone: (R.Ray, real) -> R.Ray, weighted: R.Ray -> R.Ray, sqrt: real -> real)
    requires info.material.reflectivity == 1.0 && info.material.index != 0.0 && rnd < 1.0
    ensures var res := Bounce(r, info, rnd, BounceTypeAny, cone, weighted, sqrt);
      res == (cone(R.Reflect(info.ray, r), info.material.gloss), true, 1.0)
    ensures var res := BounceIntended(r, info, rnd, BounceTypeAny, cone, weighted, sqrt);
      res == (cone(R.Reflect(info.ray, r), info.material.gloss), true, 1.0)
  {
  }

  /** A diffuse surface hit from outside, along a unit normal facing the ray, has zero
      Fresnel reflectance (both indices are 1): it never takes the specular branch and
      always bounces with the weighted diffuse ray, with weight 1. */
  lemma DiffuseNeverReflects<S>(r: R.Ray, info: H.HitInfo<S>, color: C.Colour, rnd: real,
                                cone: (R.Ray, real) -> R.Ray, weighted: R.Ray -> R.Ray,
                                sqrt: real -> real)
    requires N.IsSqrt(sqrt) && info.material == M.Diffuse(color) && !info.inside
    requires Dot(info.ray.direction, r.direction) < 0.0 && rnd >= 0.0
    ensures Defined(info.ray, r, info.material, IndicesAsWritten(info.inside, info.material.index), sqrt)
    ensures Bounce(r, info, rnd, BounceTypeAny, cone, weighted, sqrt) == (weighted(info.ray), false, 1.0)
  {
    var n := info.ray.direction;
    var i := r.direction;
    var c := -Dot(n, i);
    BounceDefined(info.ray, r, info.material, false, sqrt);
    assert SinT2(n, i, 1.0, 1.0) == 1.0 - c * c;
    N.SqrtUnique(sqrt, c * c, c);
    var cosT := sqrt(1.0 - SinT2(n, i, 1.0, 1.0));
    assert cosT == c;
    assert (1.0 * c - 1.0 * cosT) / (1.0 * c + 1.0 * cosT) == 0.0;
    assert Reflectance(n, i, 1.0, 1.0, sqrt) == 0.0;
  }

  /** Where the two versions part: a ray inside glass (index 1.5) meeting the surface with
      `cos i = 0.6`. As written both indices are 1.5, the reflectance is 0 and the ray
      refracts with weight 1 on every draw; with the swap, `sin^2 t = 1.44 > 1`, the
      reflectance is 1 and the ray is reflected with weight 1 on every draw. */
  lemma BounceDiverges<S>(r: R.Ray, info: H.HitInfo<S>, color: C.Colour, gloss: real, tint: real, rnd: real,
                          cone: (R.Ray, real) -> R.Ray, weighted: R.Ray -> R.Ray, sqrt: real -> real)
    requires N.IsSqrt(sqrt) && 0.0 <= rnd < 1.0
    requires info.material == M.Transparent(color, 1.5, gloss, tint) && info.inside
    requires info.ray.direction == V3(0.0, 0.0, 1.0) && r.direction == V3(0.8, 0.0, -0.6)
    ensures Defined(info.ray, r, info.material, IndicesAsWritten(true, 1.5), sqrt)
    ensures Defined(info.ray, r, info.material, Indices(true, 1.5), sqrt)
    ensures var res := Bounce(r, info, rnd, BounceTypeAny, cone, weighted, sqrt);
      res.1 && res.2 == 1.0 && !Reflects(BounceTypeAny, rnd, Probability(info.ray, r, info.material, IndicesAsWritten(true, 1.5), sqrt))
    ensures BounceIntended(r, info, rnd, BounceTypeAny, cone, weighted, sqrt)
      == (cone(R.Reflect(info.ray, r), gloss), true, 1.0)
  {
    BounceDefined(info.ray, r, info.material, true, sqrt);
    GrazingReflectances(info.ray.direction, r.direction, sqrt);
  }

  /** The two reflectances of `BounceDiverges`: 0 with equal indices 1.5, and 1 (total
      internal reflection) with 1.5 and 1. */
  lemma GrazingReflectances(n: Vector, i: Vector, sqrt: real -> real)
    requires N.IsSqrt(sqrt) && n == V3(0.0, 0.0, 1.0) && i == V3(0.8, 0.0, -0.6)
    ensures ReflectanceDefined(n, i, 1.5, 1.5, sqrt) && Reflectance(n, i, 1.5, 1.5, sqrt) == 0.0
    ensures ReflectanceDefined(n, i, 1.5, 1.0, sqrt) && Reflectance(n, i, 1.5, 1.0, sqrt) == 1.0
  {
    assert Dot(n, i) == -0.6;
    assert SinT2(n, i, 1.5, 1.5) == 0.64;
    N.SqrtUnique(sqrt, 0.36, 0.6);
    assert SinT2(n, i, 1.5, 1.0) == 1.44;
  }
}
