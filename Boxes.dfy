/** Axis-aligned boxes (Box.cs).

    A box carries, besides its corners, the `left`/`right` flags that `Partition` writes.
    `Partition` is the only operation that changes a box, so a box is a value here and
    `Partition` returns the updated box together with the flags. */
module Boxes {
  import N = Numeric
  import opened Vectors
  import R = Rays

  /** The split axis of a k-d node; `AxisNone` marks a leaf. */
  datatype Axis = AxisNone | AxisX | AxisY | AxisZ

  /** The coordinate of `v` along a proper axis. */
  function Coord(v: Vector, axis: Axis): real
    requires axis != AxisNone
  {
    match axis
    case AxisX => v.x
    case AxisY => v.y
    case AxisZ => v.z
  }

  datatype Box = Box(min: Vector, max: Vector, left: bool, right: bool)

  /** `new Box(min, max)`; the flags start false. */
  function NewBox(min: Vector, max: Vector): Box {
    Box(min, max, false, false)
  }

  /** `new Box()`: all-zero corners (the default vector, `w` included) and false flags. */
  const Empty: Box := Box(Zero, Zero, false, false)

  /** `Min <= Max` on every axis. */
  predicate WellFormed(b: Box) {
    LessEq(b.min, b.max)
  }

  /** `outer` contains `inner`'s corners' span: `inner` lies within `outer`. */
  predicate Encloses(outer: Box, inner: Box) {
    LessEq(outer.min, inner.min) && LessEq(inner.max, outer.max)
  }

  function Size(b: Box): (s: Vector)
    ensures Add(b.min, s) == Point(b.max)
    ensures WellFormed(b) ==> s.x >= 0.0 && s.y >= 0.0 && s.z >= 0.0
  {
    Sub(b.max, b.min)
  }

  /** `Min + Size * anchor`. */
  function Anchor(b: Box, anchor: Vector): Vector {
    Add(b.min, Mul(Size(b), anchor))
  }

  function Center(b: Box): (c: Vector)
    ensures c == Add(b.min, MulScalar(Size(b), 0.5))
    ensures c == V3((b.min.x + b.max.x) / 2.0, (b.min.y + b.max.y) / 2.0, (b.min.z + b.max.z) / 2.0)
    ensures WellFormed(b) ==> Contains(b, c)
  {
    Anchor(b, V3(0.5, 0.5, 0.5))
  }

  /** The smallest box holding both; the flags of the new box are false. */
  function Extend(a: Box, b: Box): (e: Box)
    ensures Encloses(e, a) && Encloses(e, b)
    ensures forall c: Box :: Encloses(c, a) && Encloses(c, b) ==> Encloses(c, e)
    ensures !e.left && !e.right
  {
    NewBox(Vectors.Min(a.min, b.min), Vectors.Max(a.max, b.max))
  }

  /** Inclusive on all three axes. */
  predicate Contains(b: Box, p: Vector) {
    b.min.x <= p.x && b.max.x >= p.x &&
    b.min.y <= p.y && b.max.y >= p.y &&
    b.min.z <= p.z && b.max.z >= p.z
  }

  /** Both corners of a well-formed box are inside it, and a point inside a box is inside
      every box that encloses it. */
  lemma ContainsProperties(b: Box, outer: Box, p: Vector)
    ensures WellFormed(b) ==> Contains(b, b.min) && Contains(b, b.max)
    ensures Encloses(outer, b) && Contains(b, p) ==> Contains(outer, p)
    ensures Contains(b, p) ==> WellFormed(b)
  {
  }

  predicate Intersects(a: Box, b: Box) {
    !(a.min.x > b.max.x || a.max.x < b.min.x || a.min.y > b.max.y ||
      a.max.y < b.min.y || a.min.z > b.max.z || a.max.z < b.min.z)
  }

  /** `Intersects` is symmetric, a well-formed box meets itself, and two well-formed boxes
      intersect exactly when some point lies in both. */
  lemma IntersectsProperties(a: Box, b: Box, p: Vector)
    ensures Intersects(a, b) == Intersects(b, a)
    ensures WellFormed(a) ==> Intersects(a, a)
    ensures Contains(a, p) && Contains(b, p) ==> Intersects(a, b)
    ensures WellFormed(a) && WellFormed(b) && Intersects(a, b) ==>
      Contains(a, Vectors.Max(a.min, b.min)) && Contains(b, Vectors.Max(a.min, b.min))
  {
  }

  /** The near and far slab distances along one axis, ordered by the source's
      `if (x1 > x2) swap`; a zero direction component gives IEEE infinities or NaN. */
  function Slab(lo: real, hi: real, o: real, d: real): (s: (N.Float, N.Float))
    ensures !N.Less(s.1, s.0)
    ensures d > 0.0 && lo <= hi ==> s == (N.Num((lo - o) / d), N.Num((hi - o) / d))
    ensures d < 0.0 && lo <= hi ==> s == (N.Num((hi - o) / d), N.Num((lo - o) / d))
    ensures d == 0.0 && lo < o < hi ==> s == (N.NegInf, N.PosInf)
  {
    SlabOrder(lo, hi, o, d);
    N.Ordered(N.Div(lo - o, d), N.Div(hi - o, d))
  }

  /** Dividing the slab's two offsets by a non-zero direction keeps their order when the
      direction is positive and reverses it when it is negative. */
  lemma SlabOrder(lo: real, hi: real, o: real, d: real)
    ensures d > 0.0 && lo <= hi ==> (lo - o) / d <= (hi - o) / d
    ensures d < 0.0 && lo <= hi ==> (hi - o) / d <= (lo - o) / d
  {
    if d > 0.0 && lo <= hi {
      LeDiv((lo - o) / d, hi - o, d);
    } else if d < 0.0 && lo <= hi {
      LeDiv((o - hi) / -d, o - lo, -d);
    }
  }

  /** `b.Intersect(r)`: the parameter interval `(t1, t2)` in which the ray is inside every
      slab: the largest near distance and the smallest far distance, each one of the three
      slabs' own, and NaN exactly when a slab gives NaN (`Math.Max`/`Math.Min` propagate it). */
  function Intersect(b: Box, r: R.Ray): (t: (N.Float, N.Float))
    ensures var (x, y, z) := (Slab(b.min.x, b.max.x, r.origin.x, r.direction.x),
                              Slab(b.min.y, b.max.y, r.origin.y, r.direction.y),
                              Slab(b.min.z, b.max.z, r.origin.z, r.direction.z));
            !t.0.NaN? ==> N.LessEq(x.0, t.0) && N.LessEq(y.0, t.0) && N.LessEq(z.0, t.0)
    ensures var (x, y, z) := (Slab(b.min.x, b.max.x, r.origin.x, r.direction.x),
                              Slab(b.min.y, b.max.y, r.origin.y, r.direction.y),
                              Slab(b.min.z, b.max.z, r.origin.z, r.direction.z));
            !t.1.NaN? ==> N.LessEq(t.1, x.1) && N.LessEq(t.1, y.1) && N.LessEq(t.1, z.1)
    ensures var (x, y, z) := (Slab(b.min.x, b.max.x, r.origin.x, r.direction.x),
                              Slab(b.min.y, b.max.y, r.origin.y, r.direction.y),
                              Slab(b.min.z, b.max.z, r.origin.z, r.direction.z));
            && (t.0.NaN? <==> x.0.NaN? || y.0.NaN? || z.0.NaN?)
            && (t.1.NaN? <==> x.1.NaN? || y.1.NaN? || z.1.NaN?)
            && (!t.0.NaN? ==> t.0 == x.0 || t.0 == y.0 || t.0 == z.0)
            && (!t.1.NaN? ==> t.1 == x.1 || t.1 == y.1 || t.1 == z.1)
  {
    var x := Slab(b.min.x, b.max.x, r.origin.x, r.direction.x);
    var y := Slab(b.min.y, b.max.y, r.origin.y, r.direction.y);
    var z := Slab(b.min.z, b.max.z, r.origin.z, r.direction.z);
    (N.FMax(N.FMax(x.0, y.0), z.0), N.FMin(N.FMin(x.1, y.1), z.1))
  }

  /** A point of the ray inside one slab lies within that slab's ordered distances. */
  lemma SlabWithin(lo: real, hi: real, o: real, d: real, t: real)
    requires lo <= o + t * d <= hi
    ensures var s := Slab(lo, hi, o, d); N.Within(t, s.0, s.1)
  {
    if d > 0.0 {
      assert (lo - o) / d <= t by { DivLe(lo - o, t, d); }
      assert t <= (hi - o) / d by { LeDiv(t, hi - o, d); }
    } else if d < 0.0 {
      assert (hi - o) / d <= t by { DivLe(-(hi - o), t, -d); }
      assert t <= (lo - o) / d by { LeDiv(t, -(lo - o), -d); }
    }
  }

  lemma DivLe(a: real, t: real, d: real)
    requires d > 0.0 && a <= t * d
    ensures a / d <= t
  {
    var q := a / d;
    assert q * d == a;
    assert (t - q) * d >= 0.0;
    if t < q {
      N.MulPos(q - t, d);
    }
  }

  lemma LeDiv(t: real, a: real, d: real)
    requires d > 0.0 && t * d <= a
    ensures t <= a / d
  {
    var q := a / d;
    assert q * d == a;
    if q < t {
      N.MulPos(t - q, d);
    }
  }

  /** A point of the ray that lies in the box is within the interval `Intersect` returns.
      Consequently that interval is not empty (`tmax < tmin` fails) and, for `t > 0`, not
      behind the origin (`tmax <= 0` fails): the tree's early `NoHit` loses no such point. */
  lemma IntersectWithin(b: Box, r: R.Ray, t: real)
    requires Contains(b, R.Position(r, t))
    ensures var (tmin, tmax) := Intersect(b, r); N.Within(t, tmin, tmax)
    ensures var (tmin, tmax) := Intersect(b, r); !N.Less(tmax, tmin)
    ensures var (tmin, tmax) := Intersect(b, r); t > 0.0 ==> !N.LessEq(tmax, N.Num(0.0))
  {
    SlabsWithin(b, r, t);
    var x := Slab(b.min.x, b.max.x, r.origin.x, r.direction.x);
    var y := Slab(b.min.y, b.max.y, r.origin.y, r.direction.y);
    var z := Slab(b.min.z, b.max.z, r.origin.z, r.direction.z);
    WithinAll(t, x, y, z);
    assert Intersect(b, r) == (N.FMax(N.FMax(x.0, y.0), z.0), N.FMin(N.FMin(x.1, y.1), z.1));
  }

  /** A point of the ray in the box lies within each of the three slabs' intervals. */
  lemma SlabsWithin(b: Box, r: R.Ray, t: real)
    requires Contains(b, R.Position(r, t))
    ensures var s := Slab(b.min.x, b.max.x, r.origin.x, r.direction.x); N.Within(t, s.0, s.1)
    ensures var s := Slab(b.min.y, b.max.y, r.origin.y, r.direction.y); N.Within(t, s.0, s.1)
    ensures var s := Slab(b.min.z, b.max.z, r.origin.z, r.direction.z); N.Within(t, s.0, s.1)
  {
    SlabWithinAll(b.min.x, b.max.x, r.origin.x, r.direction.x, b.min.y, b.max.y, r.origin.y, r.direction.y,
                  b.min.z, b.max.z, r.origin.z, r.direction.z, t);
  }

  /** `SlabWithin` for the three axes at once. */
  lemma SlabWithinAll(lx: real, hx: real, ox: real, dx: real, ly: real, hy: real, oy: real, dy: real,
                      lz: real, hz: real, oz: real, dz: real, t: real)
    requires lx <= ox + dx * t <= hx && ly <= oy + dy * t <= hy && lz <= oz + dz * t <= hz
    ensures var s := Slab(lx, hx, ox, dx); N.Within(t, s.0, s.1)
    ensures var s := Slab(ly, hy, oy, dy); N.Within(t, s.0, s.1)
    ensures var s := Slab(lz, hz, oz, dz); N.Within(t, s.0, s.1)
  {
    SlabWithin(lx, hx, ox, dx, t);
    SlabWithin(ly, hy, oy, dy, t);
    SlabWithin(lz, hz, oz, dz, t);
  }

  /** Within every slab's interval means within their intersection, which is then neither
      empty nor, for `t > 0`, behind the origin. */
  lemma WithinAll(t: real, x: (N.Float, N.Float), y: (N.Float, N.Float), z: (N.Float, N.Float))
    requires N.Within(t, x.0, x.1) && N.Within(t, y.0, y.1) && N.Within(t, z.0, z.1)
    ensures var (lo, hi) := (N.FMax(N.FMax(x.0, y.0), z.0), N.FMin(N.FMin(x.1, y.1), z.1));
      N.Within(t, lo, hi) && !N.Less(hi, lo) && (t > 0.0 ==> !N.LessEq(hi, N.Num(0.0)))
  {
    var (lo, hi) := (N.FMax(N.FMax(x.0, y.0), z.0), N.FMin(N.FMin(x.1, y.1), z.1));
    WithinOrdered(t, lo, hi);
  }

  lemma WithinOrdered(t: real, lo: N.Float, hi: N.Float)
    requires N.Within(t, lo, hi)
    ensures !N.Less(hi, lo)
    ensures t > 0.0 ==> !N.LessEq(hi, N.Num(0.0))
  {
  }

  /** `b.Partition(axis, point)`: `left` iff the box reaches down to `point` on the axis,
      `right` iff it reaches up to it. The flags are written into the box and returned;
      `AxisNone` writes nothing and returns the flags already there. */
  function Partition(b: Box, axis: Axis, point: real): (res: (Box, (bool, bool)))
    ensures res.0.min == b.min && res.0.max == b.max
    ensures res.1 == (res.0.left, res.0.right)
    ensures axis == AxisNone ==> res.0 == b
    ensures axis != AxisNone ==>
      (res.1.0 <==> Coord(b.min, axis) <= point) && (res.1.1 <==> Coord(b.max, axis) >= point)
    ensures axis != AxisNone && WellFormed(b) ==> res.1.0 || res.1.1
  {
    var b' :=
      match axis
      case AxisNone => b
      case AxisX => b.(left := b.min.x <= point, right := b.max.x >= point)
      case AxisY => b.(left := b.min.y <= point, right := b.max.y >= point)
      case AxisZ => b.(left := b.min.z <= point, right := b.max.z >= point);
    (b', (b'.left, b'.right))
  }

  /** The source's accumulation: starting from the first box, `Extend` by every box
      in turn (the first one included). */
  function Hull<S>(shapes: seq<S>, bbox: S -> Box): Box
    requires |shapes| > 0
  {
    HullFrom(bbox(shapes[0]), shapes, bbox)
  }

  /** `acc` extended by the boxes of `shapes` from the first to the last. */
  function HullFrom<S>(acc: Box, shapes: seq<S>, bbox: S -> Box): Box
    decreases |shapes|
  {
    if |shapes| == 0 then acc
    else Extend(HullFrom(acc, shapes[..|shapes| - 1], bbox), bbox(shapes[|shapes| - 1]))
  }

  /** The accumulated box encloses the start box and every shape's box. */
  lemma {:induction false} HullFromEncloses<S>(acc: Box, shapes: seq<S>, bbox: S -> Box)
    ensures Encloses(HullFrom(acc, shapes, bbox), acc)
    ensures forall i :: 0 <= i < |shapes| ==> Encloses(HullFrom(acc, shapes, bbox), bbox(shapes[i]))
    decreases |shapes|
  {
    if |shapes| > 0 {
      var init := shapes[..|shapes| - 1];
      HullFromEncloses(acc, init, bbox);
      forall i | 0 <= i < |shapes|
        ensures Encloses(HullFrom(acc, shapes, bbox), bbox(shapes[i]))
      {
        if i < |shapes| - 1 {
          assert shapes[i] == init[i];
        }
      }
    }
  }

  /** `BoxForShapes`: the default box for no shapes, otherwise the running `Extend` of
      every shape's bounding box, which encloses each of them. */
  method BoxForShapes<S>(shapes: seq<S>, bbox: S -> Box) returns (box: Box)
    ensures |shapes| == 0 ==> box == Empty
    ensures |shapes| > 0 ==> box == Hull(shapes, bbox)
    ensures forall i :: 0 <= i < |shapes| ==> Encloses(box, bbox(shapes[i]))
  {
    if |shapes| == 0 {
      return Empty;
    }
    box := bbox(shapes[0]);
    var i := 0;
    while i < |shapes|
      invariant 0 <= i <= |shapes|
      invariant box == HullFrom(bbox(shapes[0]), shapes[..i], bbox)
    {
      assert shapes[..i + 1][..i] == shapes[..i];
      box := Extend(box, bbox(shapes[i]));
      i := i + 1;
    }
    assert shapes[..i] == shapes;
    HullFromEncloses(bbox(shapes[0]), shapes, bbox);
  }
}
