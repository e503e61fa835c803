/** The sample buffer of Buffer.cs: one `Pixel` per image cell, each keeping Welford's
    running mean and running sum of squared deviations of the colours added to it. */
module Buffers {
  import N = Numeric
  import C = Colours

  /** A pixel's statistics: the sample count, the running mean `M` and the running sum of
      squared deviations `V`. */
  datatype Stats = Stats(samples: int, m: C.Colour, v: C.Colour)

  /** The statistics of a pixel that has seen nothing. */
  const Fresh: Stats := Stats(0, C.Black, C.Black)

  /** `Pixel.AddSample`: the count goes up by one; the first sample becomes the mean and
      leaves `V` as it was; a later one moves the mean by `(s - M) / n` and adds
      `(s - M) (s - M')` to `V`, channel by channel. A count of -1 would divide by zero
      and is excluded. */
  function Update(st: Stats, s: C.Colour): Stats
    requires st.samples != -1
  {
    var n := st.samples + 1;
    if n == 1 then Stats(n, s, st.v)
    else
      var m := C.Add(st.m, C.DivScalar(C.Sub(s, st.m), n as real));
      Stats(n, m, C.Add(st.v, C.Mul(C.Sub(s, st.m), C.Sub(s, m))))
  }

  /** The statistics after adding `xs` in order to a fresh pixel. */
  function Accumulate(xs: seq<C.Colour>): (st: Stats)
    ensures st.samples == |xs|
  {
    if |xs| == 0 then Fresh else Update(Accumulate(xs[..|xs| - 1]), xs[|xs| - 1])
  }

  predicate NonNegative(c: C.Colour) {
    c.r >= 0.0 && c.g >= 0.0 && c.b >= 0.0
  }

  /** The channelwise sum of `xs`. */
  function Sum(xs: seq<C.Colour>): C.Colour {
    if |xs| == 0 then C.Black else C.Add(Sum(xs[..|xs| - 1]), xs[|xs| - 1])
  }

  /** The channelwise sum of the squared deviations of `xs` from `c`. */
  function SquaredDeviations(xs: seq<C.Colour>, c: C.Colour): C.Colour {
    if |xs| == 0 then C.Black
    else
      var d := C.Sub(xs[|xs| - 1], c);
      C.Add(SquaredDeviations(xs[..|xs| - 1], c), C.Mul(d, d))
  }

  /** One channel of a step after the first: with `a` samples before it, the new mean
      `mp` satisfies `mp (a + 1) = a m + s`. */
  lemma ChannelStep(a: real, m: real, s: real, mp: real)
    requires a >= 1.0 && mp == m + (s - m) / (a + 1.0)
    ensures mp * (a + 1.0) == a * m + s
  {
    var q := (s - m) / (a + 1.0);
    assert q * (a + 1.0) == s - m;
  }

  /** The new mean `mp` after a sample `s` that follows `a` samples with mean `m`:
      `mp (a + 1) = a m + s`, channel by channel. */
  predicate MeanStepped(a: real, m: C.Colour, s: C.Colour, mp: C.Colour) {
    mp.r * (a + 1.0) == a * m.r + s.r &&
    mp.g * (a + 1.0) == a * m.g + s.g &&
    mp.b * (a + 1.0) == a * m.b + s.b
  }

  /** The new `V`: `(s - m) (s - mp)` added to `v`, channel by channel. */
  predicate DeviationStepped(m: C.Colour, v: C.Colour, s: C.Colour, mp: C.Colour, vp: C.Colour) {
    vp == C.Colour(v.r + (s.r - m.r) * (s.r - mp.r), v.g + (s.g - m.g) * (s.g - mp.g),
                   v.b + (s.b - m.b) * (s.b - mp.b))
  }

  /** A later sample moves the mean as `MeanStepped` says. */
  lemma UpdateMean(st: Stats, s: C.Colour)
    requires st.samples >= 1
    ensures MeanStepped(st.samples as real, st.m, s, Update(st, s).m)
  {
    var a := st.samples as real;
    var u := Update(st, s);
    assert (st.samples + 1) as real == a + 1.0;
    ChannelStep(a, st.m.r, s.r, u.m.r);
    ChannelStep(a, st.m.g, s.g, u.m.g);
    ChannelStep(a, st.m.b, s.b, u.m.b);
  }

  /** A later sample moves `V` as `DeviationStepped` says. */
  lemma UpdateDeviation(st: Stats, s: C.Colour)
    requires st.samples >= 1
    ensures Update(st, s).samples == st.samples + 1
    ensures DeviationStepped(st.m, st.v, s, Update(st, s).m, Update(st, s).v)
  {
    var u := Update(st, s);
    assert u.v == C.Add(st.v, C.Mul(C.Sub(s, st.m), C.Sub(s, u.m)));
    DeviationForm(st.m, st.v, s, u.m);
  }

  /** `v + (s - m) (s - mp)`, written with the colour operations, is `DeviationStepped`. */
  lemma DeviationForm(m: C.Colour, v: C.Colour, s: C.Colour, mp: C.Colour)
    ensures DeviationStepped(m, v, s, mp, C.Add(v, C.Mul(C.Sub(s, m), C.Sub(s, mp))))
  {
  }

  /** One channel of the growth of `V`: for a new mean with `mp (a + 1) = a m + s`, the
      increment `(s - m) (s - mp)` added to `v` is `(s - m)^2 a / (a + 1)`. */
  lemma ChannelGrowth(a: real, m: real, s: real, mp: real, v: real, vp: real)
    requires a >= 1.0 && mp * (a + 1.0) == a * m + s && vp == v + (s - m) * (s - mp)
    ensures vp == v + (s - m) * (s - m) * (a / (a + 1.0))
  {
    var n, d := a + 1.0, s - m;
    var k := a / n;
    assert k * n == a;
    assert s - mp == d * k by {
      assert (s - mp) * n == a * d;
      assert (d * k) * n == a * d;
      Cancel(s - mp, d * k, n);
    }
  }

  lemma Cancel(x: real, y: real, n: real)
    requires n != 0.0 && x * n == y * n
    ensures x == y
  {
    assert (x - y) * n == 0.0;
  }

  /** The growth of `V` for a whole colour. */
  lemma StepIncrement(a: real, m: C.Colour, v: C.Colour, s: C.Colour, mp: C.Colour, vp: C.Colour)
    requires a >= 1.0 && MeanStepped(a, m, s, mp) && DeviationStepped(m, v, s, mp, vp)
    ensures var d := C.Sub(s, m); vp == C.Add(v, C.MulScalar(C.Mul(d, d), a / (a + 1.0)))
  {
    ChannelGrowth(a, m.r, s.r, mp.r, v.r, vp.r);
    ChannelGrowth(a, m.g, s.g, mp.g, v.g, vp.g);
    ChannelGrowth(a, m.b, s.b, mp.b, v.b, vp.b);
    AddScaled(v, C.Sub(s, m), a / (a + 1.0), vp);
  }

  /** `vp = v + d^2 k`, from its three channels. */
  lemma AddScaled(v: C.Colour, d: C.Colour, k: real, vp: C.Colour)
    requires vp.r == v.r + d.r * d.r * k && vp.g == v.g + d.g * d.g * k && vp.b == v.b + d.b * d.b * k
    ensures vp == C.Add(v, C.MulScalar(C.Mul(d, d), k))
  {
  }

  /** A later step adds `(s - M)^2 (n - 1) / n` to `V`, channel by channel. */
  lemma UpdateIncrement(st: Stats, s: C.Colour)
    requires st.samples >= 1
    ensures var a := st.samples as real; var d := C.Sub(s, st.m);
      Update(st, s).v == C.Add(st.v, C.MulScalar(C.Mul(d, d), a / (a + 1.0)))
  {
    UpdateMean(st, s);
    UpdateDeviation(st, s);
    StepIncrement(st.samples as real, st.m, st.v, s, Update(st, s).m, Update(st, s).v);
  }

  /** The factor `a / (a + 1)` of the increment is positive. */
  lemma FactorPositive(a: real)
    requires a >= 1.0
    ensures a / (a + 1.0) > 0.0
  {
    var k := a / (a + 1.0);
    assert k * (a + 1.0) == a;
    if k <= 0.0 {
      N.MulPos(-k + 1.0, a + 1.0);
    }
  }

  /** Adding a square scaled by `k >= 0` keeps a colour non-negative. */
  lemma AddScaledSquare(v: C.Colour, d: C.Colour, k: real)
    requires NonNegative(v) && k >= 0.0
    ensures NonNegative(C.Add(v, C.MulScalar(C.Mul(d, d), k)))
  {
    N.SquareNonNegative(d.r);
    N.SquareNonNegative(d.g);
    N.SquareNonNegative(d.b);
    ScaledNonNegative(d.r * d.r, k);
    ScaledNonNegative(d.g * d.g, k);
    ScaledNonNegative(d.b * d.b, k);
  }

  lemma ScaledNonNegative(x: real, k: real)
    requires x >= 0.0 && k >= 0.0
    ensures x * k >= 0.0
  {
    if x > 0.0 && k > 0.0 {
      N.MulPos(x, k);
    }
  }

  /** A step never decreases `V`, so a pixel with a non-negative count and non-negative
      `V` keeps both after a sample, which is what `StandardDeviation`'s square root
      needs. */
  lemma UpdateKeepsNonNegative(st: Stats, s: C.Colour)
    requires st.samples >= 0 && NonNegative(st.v)
    ensures Update(st, s).samples == st.samples + 1 >= 1 && NonNegative(Update(st, s).v)
  {
    if st.samples >= 1 {
      var a := st.samples as real;
      UpdateIncrement(st, s);
      FactorPositive(a);
      AddScaledSquare(st.v, C.Sub(s, st.m), a / (a + 1.0));
    }
  }

  /** One channel of the mean half of the invariant Welford keeps: after `a` samples with
      sum `S`, `M a = S`, and the new mean `M'` has `M' (a + 1) = S + s`. */
  lemma ChannelSum(a: real, m: real, sum: real, s: real, mp: real)
    requires m * a == sum && mp * (a + 1.0) == a * m + s
    ensures mp * (a + 1.0) == sum + s
  {
  }

  /** One channel of the squares half: with `V + M^2 a = Q`, the step gives
      `V' + M'^2 (a + 1) = Q + s^2`. */
  lemma ChannelSquares(a: real, m: real, v: real, squares: real, s: real, mp: real, vp: real)
    requires v + m * m * a == squares && mp * (a + 1.0) == a * m + s && vp == v + (s - m) * (s - mp)
    ensures vp + mp * mp * (a + 1.0) == squares + s * s
  {
    assert (s - m) * (s - mp) + mp * mp * (a + 1.0) - s * s - m * m * a ==
      (m - mp) * (a * m + s - mp * (a + 1.0));
  }

  /** The sum half of the invariant carried across one later step. */
  lemma SumsStepMean(a: real, m: C.Colour, s: C.Colour, mp: C.Colour, sum: C.Colour)
    requires MeanStepped(a, m, s, mp) && C.MulScalar(m, a) == sum
    ensures C.MulScalar(mp, a + 1.0) == C.Add(sum, s)
  {
    ChannelSum(a, m.r, sum.r, s.r, mp.r);
    ChannelSum(a, m.g, sum.g, s.g, mp.g);
    ChannelSum(a, m.b, sum.b, s.b, mp.b);
    ScaledSum(mp, a + 1.0, sum, s);
  }

  /** `mp k = S + s`, from its three channels. */
  lemma ScaledSum(mp: C.Colour, k: real, sum: C.Colour, s: C.Colour)
    requires mp.r * k == sum.r + s.r && mp.g * k == sum.g + s.g && mp.b * k == sum.b + s.b
    ensures C.MulScalar(mp, k) == C.Add(sum, s)
  {
  }

  /** The squares half of the invariant carried across one later step. */
  lemma SumsStepSquares(a: real, m: C.Colour, v: C.Colour, s: C.Colour, mp: C.Colour, vp: C.Colour,
                        q: C.Colour)
    requires MeanStepped(a, m, s, mp) && DeviationStepped(m, v, s, mp, vp)
    requires C.Add(v, C.MulScalar(C.Mul(m, m), a)) == q
    ensures C.Add(vp, C.MulScalar(C.Mul(mp, mp), a + 1.0)) == C.Add(q, C.Mul(s, s))
  {
    SquaresParts(v, m, a, q);
    SquaresChannels(a, m, v, s, mp, vp, q);
    SquaresSum(vp, mp, a, q, s);
  }

  lemma SquaresChannels(a: real, m: C.Colour, v: C.Colour, s: C.Colour, mp: C.Colour, vp: C.Colour,
                        q: C.Colour)
    requires v.r + m.r * m.r * a == q.r && v.g + m.g * m.g * a == q.g && v.b + m.b * m.b * a == q.b
    requires mp.r * (a + 1.0) == a * m.r + s.r && mp.g * (a + 1.0) == a * m.g + s.g && mp.b * (a + 1.0) == a * m.b + s.b
    requires vp.r == v.r + (s.r - m.r) * (s.r - mp.r) && vp.g == v.g + (s.g - m.g) * (s.g - mp.g) && vp.b == v.b + (s.b - m.b) * (s.b - mp.b)
    ensures vp.r + mp.r * mp.r * (a + 1.0) == q.r + s.r * s.r
    ensures vp.g + mp.g * mp.g * (a + 1.0) == q.g + s.g * s.g
    ensures vp.b + mp.b * mp.b * (a + 1.0) == q.b + s.b * s.b
  {
    SquaresReals(a, m.r, v.r, s.r, mp.r, vp.r, q.r, m.g, v.g, s.g, mp.g, vp.g, q.g,
      m.b, v.b, s.b, mp.b, vp.b, q.b);
  }

  /** `ChannelSquares` for the three channels at once, each given as its own reals. */
  lemma SquaresReals(a: real,
    m1: real, v1: real, s1: real, mp1: real, vp1: real, q1: real,
    m2: real, v2: real, s2: real, mp2: real, vp2: real, q2: real,
    m3: real, v3: real, s3: real, mp3: real, vp3: real, q3: real)
    requires v1 + m1 * m1 * a == q1 && mp1 * (a + 1.0) == a * m1 + s1 && vp1 == v1 + (s1 - m1) * (s1 - mp1)
    requires v2 + m2 * m2 * a == q2 && mp2 * (a + 1.0) == a * m2 + s2 && vp2 == v2 + (s2 - m2) * (s2 - mp2)
    requires v3 + m3 * m3 * a == q3 && mp3 * (a + 1.0) == a * m3 + s3 && vp3 == v3 + (s3 - m3) * (s3 - mp3)
    ensures vp1 + mp1 * mp1 * (a + 1.0) == q1 + s1 * s1
    ensures vp2 + mp2 * mp2 * (a + 1.0) == q2 + s2 * s2
    ensures vp3 + mp3 * mp3 * (a + 1.0) == q3 + s3 * s3
  {
    ChannelSquares(a, m1, v1, q1, s1, mp1, vp1);
    ChannelSquares(a, m2, v2, q2, s2, mp2, vp2);
    ChannelSquares(a, m3, v3, q3, s3, mp3, vp3);
  }

  /** The channels of `V + M^2 a = Q`. */
  lemma SquaresParts(v: C.Colour, m: C.Colour, a: real, q: C.Colour)
    requires C.Add(v, C.MulScalar(C.Mul(m, m), a)) == q
    ensures v.r + m.r * m.r * a == q.r && v.g + m.g * m.g * a == q.g && v.b + m.b * m.b * a == q.b
  {
  }

  /** `V' + M'^2 (a + 1) = Q + s^2`, from its three channels. */
  lemma SquaresSum(vp: C.Colour, mp: C.Colour, a: real, q: C.Colour, s: C.Colour)
    requires vp.r + mp.r * mp.r * (a + 1.0) == q.r + s.r * s.r
    requires vp.g + mp.g * mp.g * (a + 1.0) == q.g + s.g * s.g
    requires vp.b + mp.b * mp.b * (a + 1.0) == q.b + s.b * s.b
    ensures C.Add(vp, C.MulScalar(C.Mul(mp, mp), a + 1.0)) == C.Add(q, C.Mul(s, s))
  {
  }

  /** The sums `Welford` tracks: `n M` is the sum of the samples and `V + n M^2` the sum
      of their squares. */
  lemma {:induction false} AccumulateSums(xs: seq<C.Colour>)
    ensures var st := Accumulate(xs); var n := |xs| as real;
      (|xs| > 0 ==> C.MulScalar(st.m, n) == Sum(xs)) &&
      C.Add(st.v, C.MulScalar(C.Mul(st.m, st.m), n)) == SquaredDeviations(xs, C.Black)
  {
    if |xs| > 1 {
      var init := xs[..|xs| - 1];
      var x := xs[|xs| - 1];
      AccumulateSums(init);
      var st, u := Accumulate(init), Accumulate(xs);
      var a := |init| as real;
      UpdateMean(st, x);
      UpdateDeviation(st, x);
      SumsStepMean(a, st.m, x, u.m, Sum(init));
      SumsStepSquares(a, st.m, st.v, x, u.m, u.v, SquaredDeviations(init, C.Black));
      assert C.Sub(x, C.Black) == x;
      assert |xs| as real == a + 1.0;
    } else if |xs| == 1 {
      assert xs[..0] == [];
    }
  }

  /** One channel of a step of `DeviationsExpand`. */
  lemma DeviationStep(d: real, q: real, sum: real, n: real, x: real, c: real)
    requires d == (q - c * sum * 2.0) + c * c * n
    ensures d + (x - c) * (x - c) == ((q + (x - 0.0) * (x - 0.0)) - c * (sum + x) * 2.0) + c * c * (n + 1.0)
  {
  }

  /** The expansion of `DeviationsExpand` carried across one more sample `x`. */
  lemma DeviationsStep(d: C.Colour, q: C.Colour, sum: C.Colour, n: real, x: C.Colour, c: C.Colour)
    requires d == C.Add(C.Sub(q, C.MulScalar(C.Mul(c, sum), 2.0)), C.MulScalar(C.Mul(c, c), n))
    ensures C.Add(d, C.Mul(C.Sub(x, c), C.Sub(x, c))) ==
      C.Add(C.Sub(C.Add(q, C.Mul(C.Sub(x, C.Black), C.Sub(x, C.Black))), C.MulScalar(C.Mul(c, C.Add(sum, x)), 2.0)),
            C.MulScalar(C.Mul(c, c), n + 1.0))
  {
    DeviationsParts(d, q, sum, n, c);
    DeviationReals(n, d.r, q.r, sum.r, x.r, c.r, d.g, q.g, sum.g, x.g, c.g, d.b, q.b, sum.b, x.b, c.b);
    DeviationsAssemble(d, q, sum, n, x, c);
  }

  /** The hypothesis of `DeviationsStep`, channel by channel. */
  lemma DeviationsParts(d: C.Colour, q: C.Colour, sum: C.Colour, n: real, c: C.Colour)
    requires d == C.Add(C.Sub(q, C.MulScalar(C.Mul(c, sum), 2.0)), C.MulScalar(C.Mul(c, c), n))
    ensures d.r == (q.r - c.r * sum.r * 2.0) + c.r * c.r * n
    ensures d.g == (q.g - c.g * sum.g * 2.0) + c.g * c.g * n
    ensures d.b == (q.b - c.b * sum.b * 2.0) + c.b * c.b * n
  {
  }

  /** `DeviationStep` for the three channels at once. */
  lemma DeviationReals(n: real, dr: real, qr: real, sr: real, xr: real, cr: real,
                       dg: real, qg: real, sg: real, xg: real, cg: real,
                       db: real, qb: real, sb: real, xb: real, cb: real)
    requires dr == (qr - cr * sr * 2.0) + cr * cr * n
    requires dg == (qg - cg * sg * 2.0) + cg * cg * n
    requires db == (qb - cb * sb * 2.0) + cb * cb * n
    ensures dr + (xr - cr) * (xr - cr) == ((qr + (xr - 0.0) * (xr - 0.0)) - cr * (sr + xr) * 2.0) + cr * cr * (n + 1.0)
    ensures dg + (xg - cg) * (xg - cg) == ((qg + (xg - 0.0) * (xg - 0.0)) - cg * (sg + xg) * 2.0) + cg * cg * (n + 1.0)
    ensures db + (xb - cb) * (xb - cb) == ((qb + (xb - 0.0) * (xb - 0.0)) - cb * (sb + xb) * 2.0) + cb * cb * (n + 1.0)
  {
    DeviationStep(dr, qr, sr, n, xr, cr);
    DeviationStep(dg, qg, sg, n, xg, cg);
    DeviationStep(db, qb, sb, n, xb, cb);
  }

  /** The conclusion of `DeviationsStep` from its three channels. */
  lemma DeviationsAssemble(d: C.Colour, q: C.Colour, sum: C.Colour, n: real, x: C.Colour, c: C.Colour)
    requires d.r + (x.r - c.r) * (x.r - c.r) ==
      ((q.r + (x.r - 0.0) * (x.r - 0.0)) - c.r * (sum.r + x.r) * 2.0) + c.r * c.r * (n + 1.0)
    requires d.g + (x.g - c.g) * (x.g - c.g) ==
      ((q.g + (x.g - 0.0) * (x.g - 0.0)) - c.g * (sum.g + x.g) * 2.0) + c.g * c.g * (n + 1.0)
    requires d.b + (x.b - c.b) * (x.b - c.b) ==
      ((q.b + (x.b - 0.0) * (x.b - 0.0)) - c.b * (sum.b + x.b) * 2.0) + c.b * c.b * (n + 1.0)
    ensures C.Add(d, C.Mul(C.Sub(x, c), C.Sub(x, c))) ==
      C.Add(C.Sub(C.Add(q, C.Mul(C.Sub(x, C.Black), C.Sub(x, C.Black))), C.MulScalar(C.Mul(c, C.Add(sum, x)), 2.0)),
            C.MulScalar(C.Mul(c, c), n + 1.0))
  {
  }

  /** The sum of squared deviations from `c` is `Q - 2 c S + n c^2`. */
  lemma {:induction false} DeviationsExpand(xs: seq<C.Colour>, c: C.Colour)
    ensures var n := |xs| as real;
      SquaredDeviations(xs, c) ==
        C.Add(C.Sub(SquaredDeviations(xs, C.Black), C.MulScalar(C.Mul(c, Sum(xs)), 2.0)),
              C.MulScalar(C.Mul(c, c), n))
  {
    if |xs| > 0 {
      var init := xs[..|xs| - 1];
      DeviationsExpand(init, c);
      DeviationsStep(SquaredDeviations(init, c), SquaredDeviations(init, C.Black), Sum(init),
        |init| as real, xs[|xs| - 1], c);
      assert |xs| as real == |init| as real + 1.0;
    } else {
      NoDeviations(c);
    }
  }

  lemma NoDeviations(c: C.Colour)
    ensures C.Add(C.Sub(C.Black, C.MulScalar(C.Mul(c, C.Black), 2.0)), C.MulScalar(C.Mul(c, c), 0.0)) == C.Black
  {
  }

  /** One channel of `MeanAndDeviations`. */
  lemma MeanChannel(v: real, m: real, n: real, q: real, sum: real, d: real)
    requires n > 0.0 && v + m * m * n == q && m * n == sum && d == (q - m * sum * 2.0) + m * m * n
    ensures m == sum / n && d == v
  {
    assert m * sum == m * m * n;
  }

  /** The mean and the sums of `AccumulateSums`, with the expansion of the deviations
      from the mean. */
  lemma MeanStats(st: Stats, n: real, q: C.Colour, sum: C.Colour, d: C.Colour)
    requires n > 0.0
    requires C.MulScalar(st.m, n) == sum && C.Add(st.v, C.MulScalar(C.Mul(st.m, st.m), n)) == q
    requires d == C.Add(C.Sub(q, C.MulScalar(C.Mul(st.m, sum), 2.0)), C.MulScalar(C.Mul(st.m, st.m), n))
    ensures st.m == C.DivScalar(sum, n) && d == st.v
  {
    MeanChannel(st.v.r, st.m.r, n, q.r, sum.r, d.r);
    MeanChannel(st.v.g, st.m.g, n, q.g, sum.g, d.g);
    MeanChannel(st.v.b, st.m.b, n, q.b, sum.b, d.b);
  }

  /** Welford's pixel statistics are the sample mean and the sum of squared deviations
      from it, so `V / (n - 1)` is the sample variance. */
  lemma MeanAndDeviations(xs: seq<C.Colour>)
    requires |xs| > 0
    ensures var st := Accumulate(xs);
      st.m == C.DivScalar(Sum(xs), |xs| as real) && st.v == SquaredDeviations(xs, st.m)
  {
    var st := Accumulate(xs);
    AccumulateSums(xs);
    DeviationsExpand(xs, st.m);
    MeanStats(st, |xs| as real, SquaredDeviations(xs, C.Black), Sum(xs), SquaredDeviations(xs, st.m));
  }

  /** The sum of squared deviations is non-negative in every channel. */
  lemma {:induction false} DeviationsNonNegative(xs: seq<C.Colour>, c: C.Colour)
    ensures NonNegative(SquaredDeviations(xs, c))
  {
    if |xs| > 0 {
      DeviationsNonNegative(xs[..|xs| - 1], c);
      var d := C.Sub(xs[|xs| - 1], c);
      assert d.r * d.r >= 0.0 && d.g * d.g >= 0.0 && d.b * d.b >= 0.0;
    }
  }

  /** A later sample equal to the mean of a pixel with zero `V` changes neither. */
  lemma UpdateSame(st: Stats, c: C.Colour)
    requires st.samples >= 1 && st.m == c && st.v == C.Black
    ensures Update(st, c) == Stats(st.samples + 1, c, C.Black)
  {
  }

  /** Adding the same colour again and again keeps it as the mean and `V` at zero. */
  lemma {:induction false} ConstantSamples(xs: seq<C.Colour>, c: C.Colour)
    requires |xs| > 0 && forall i :: 0 <= i < |xs| ==> xs[i] == c
    ensures Accumulate(xs) == Stats(|xs|, c, C.Black)
  {
    var init := xs[..|xs| - 1];
    assert xs[|xs| - 1] == c;
    if |xs| > 1 {
      assert forall i :: 0 <= i < |init| ==> init[i] == xs[i];
      ConstantSamples(init, c);
      var st := Accumulate(init);
      assert Accumulate(xs) == Update(st, c);
      UpdateSame(st, c);
    } else {
      assert init == [];
    }
  }

  /** `Math.Pow(x, 0.5)` is the non-negative square root of every non-negative `x`. */
  ghost predicate IsSquareRootPow(pow: (real, real) -> real) {
    forall x :: x >= 0.0 ==> pow(x, 0.5) >= 0.0 && pow(x, 0.5) * pow(x, 0.5) == x
  }

  class Pixel {
    var samples: int
    var m: C.Colour
    var v: C.Colour

    /** `Pixel(Samples, M, V)`. */
    constructor (samples: int, m: C.Colour, v: C.Colour)
      ensures this.samples == samples && this.m == m && this.v == v
    {
      this.samples := samples;
      this.m := m;
      this.v := v;
    }

    function State(): Stats
      reads this
    {
      Stats(samples, m, v)
    }

    /** `AddSample(sample)`: one step of Welford's update. */
    method AddSample(sample: C.Colour)
      requires samples != -1
      modifies this
      ensures State() == Update(old(State()), sample)
      ensures samples == old(samples) + 1
    {
      samples := samples + 1;
      if samples == 1 {
        m := sample;
        return;
      }
      var prev := m;
      m := C.Add(m, C.DivScalar(C.Sub(sample, m), samples as real));
      v := C.Add(v, C.Mul(C.Sub(sample, prev), C.Sub(sample, m)));
    }

    /** `Color()`: the running mean. */
    function Color(): (c: C.Colour)
      reads this
      ensures c == State().m
    {
      m
    }

    /** `Variance()`: zero below two samples; otherwise `V` spread over `n - 1`. */
    function Variance(): (c: C.Colour)
      reads this
      ensures samples < 2 ==> c == C.Black
      ensures samples >= 2 ==> C.MulScalar(c, (samples - 1) as real) == v
    {
      if samples < 2 then C.Black else C.DivScalar(v, (samples - 1) as real)
    }

    /** `StandardDeviation()`: the variance raised to the power 0.5 (`Math.Pow`, a
        parameter); where `V` is non-negative it is the channelwise square root. */
    function StandardDeviation(pow: (real, real) -> real): (c: C.Colour)
      reads this
      ensures IsSquareRootPow(pow) && NonNegative(v) && samples >= 0 ==>
        NonNegative(c) && C.Mul(c, c) == Variance()
    {
      C.Pow(Variance(), 0.5, pow)
    }
  }

  /** Every pixel fed only through `AddSample` from a fresh start has non-negative `V`, so
      its standard deviation is a true square root of its variance. */
  lemma AccumulateNonNegative(xs: seq<C.Colour>)
    ensures NonNegative(Accumulate(xs).v)
  {
    if |xs| > 0 {
      MeanAndDeviations(xs);
      DeviationsNonNegative(xs, Accumulate(xs).m);
    }
  }

  class Buffer {
    var w: int
    var h: int
    var pixels: array<Pixel?>

    /** A buffer of `W H` pixels, all present and all different objects. */
    ghost predicate Valid()
      reads this, pixels
    {
      pixels.Length == w * h &&
      (forall i :: 0 <= i < pixels.Length ==> pixels[i] != null) &&
      (forall i, j :: 0 <= i < j < pixels.Length ==> pixels[i] != pixels[j])
    }

    /** `n` new pixels with no samples and zero colours. */
    static method FreshPixels(n: int) returns (a: array<Pixel?>)
      requires n >= 0
      ensures fresh(a) && a.Length == n
      ensures forall i :: 0 <= i < n ==> a[i] != null && fresh(a[i]) && a[i].State() == Fresh
      ensures forall i, j :: 0 <= i < j < n ==> a[i] != a[j]
    {
      a := new Pixel?[n];
      for i := 0 to n
        invariant forall k :: 0 <= k < i ==> a[k] != null && fresh(a[k]) && a[k].State() == Fresh
        invariant forall k, l :: 0 <= k < l < i ==> a[k] != a[l]
      {
        a[i] := new Pixel(0, C.Black, C.Black);
      }
    }

    /** `Buffer(width, height)`: `width height` fresh pixels. A negative height makes the
        allocation of the image bytes throw, and a negative `width height` that of the
        pixels, so both are excluded. */
    constructor Init(width: int, height: int)
      requires height >= 0 && width * height >= 0
      ensures Valid() && w == width && h == height && fresh(pixels)
      ensures forall i :: 0 <= i < pixels.Length ==> fresh(pixels[i]) && pixels[i].State() == Fresh
    {
      var a := FreshPixels(width * height);
      w := width;
      h := height;
      pixels := a;
    }

    /** `Buffer(width, height, pbuffer)`: wraps the given array as it is. */
    constructor FromPixels(width: int, height: int, pbuffer: array<Pixel?>)
      ensures w == width && h == height && pixels == pbuffer
    {
      w := width;
      h := height;
      pixels := pbuffer;
    }

    /** `NewBuffer(w, h)`: the same buffer as `Buffer(w, h)`, built through the wrapping
        constructor. */
    static method NewBuffer(width: int, height: int) returns (b: Buffer)
      requires width * height >= 0
      ensures fresh(b) && fresh(b.pixels) && b.Valid() && b.w == width && b.h == height
      ensures forall i :: 0 <= i < b.pixels.Length ==> fresh(b.pixels[i]) && b.pixels[i].State() == Fresh
    {
      var pixbuffer := FreshPixels(width * height);
      b := new Buffer.FromPixels(width, height, pixbuffer);
    }

    /** `Copy()`: a new buffer of the same size over a new array of `W H` cells holding the
        same pixel objects, a shallow copy; cells beyond the old array stay empty. An array
        longer than `W H` makes `Array.Copy` throw and is excluded. */
    method Copy() returns (b: Buffer)
      requires 0 <= pixels.Length <= w * h
      ensures fresh(b) && fresh(b.pixels) && b.w == w && b.h == h
      ensures b.pixels.Length == w * h && b.pixels[..pixels.Length] == pixels[..]
      ensures forall i :: pixels.Length <= i < w * h ==> b.pixels[i] == null
      ensures Valid() ==> b.Valid()
    {
      var pixcopy := new Pixel?[w * h](_ => null);
      forall i | 0 <= i < pixels.Length {
        pixcopy[i] := pixels[i];
      }
      b := new Buffer.FromPixels(w, h, pixcopy);
    }

    function Index(x: int, y: int): int
      reads this
    {
      y * w + x
    }

    /** `AddSample(x, y, sample)`: the pixel at row `y`, column `x` takes the sample and no
        other pixel changes. A cell outside the array throws and is excluded. */
    method AddSample(x: int, y: int, sample: C.Colour)
      requires Valid() && 0 <= Index(x, y) < pixels.Length
      requires pixels[Index(x, y)].samples != -1
      modifies pixels[Index(x, y)]
      ensures pixels[Index(x, y)].State() == Update(old(pixels[Index(x, y)].State()), sample)
      ensures forall j :: 0 <= j < pixels.Length && j != Index(x, y) ==>
        pixels[j].State() == old(pixels[j].State())
    {
      pixels[Index(x, y)].AddSample(sample);
    }

    /** `Samples(x, y)`. */
    function Samples(x: int, y: int): (n: int)
      requires Valid() && 0 <= Index(x, y) < pixels.Length
      reads this, pixels, pixels[Index(x, y)]
      ensures n == pixels[Index(x, y)].State().samples
    {
      pixels[Index(x, y)].samples
    }

    /** `Color(x, y)`. */
    function Color(x: int, y: int): (c: C.Colour)
      requires Valid() && 0 <= Index(x, y) < pixels.Length
      reads this, pixels, pixels[Index(x, y)]
      ensures c == pixels[Index(x, y)].State().m
    {
      pixels[Index(x, y)].Color()
    }

    /** `Variance(x, y)`. */
    function Variance(x: int, y: int): (c: C.Colour)
      requires Valid() && 0 <= Index(x, y) < pixels.Length
      reads this, pixels, pixels[Index(x, y)]
      ensures var p := pixels[Index(x, y)];
        (p.samples < 2 ==> c == C.Black) &&
        (p.samples >= 2 ==> C.MulScalar(c, (p.samples - 1) as real) == p.v)
    {
      pixels[Index(x, y)].Variance()
    }

    /** `StandardDeviation(x, y)`. */
    function StandardDeviation(x: int, y: int, pow: (real, real) -> real): (c: C.Colour)
      requires Valid() && 0 <= Index(x, y) < pixels.Length
      reads this, pixels, pixels[Index(x, y)]
      ensures var p := pixels[Index(x, y)];
        IsSquareRootPow(pow) && NonNegative(p.v) && p.samples >= 0 ==>
          NonNegative(c) && C.Mul(c, c) == p.Variance()
    {
      pixels[Index(x, y)].StandardDeviation(pow)
    }
  }
}
