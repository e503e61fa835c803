/** The k-d tree of Tree.cs as values: the tree `Split` builds from a shape array and
    the hit its front-to-back traversal returns. The classes in module KdTree are proved
    to build and traverse exactly these values, and the lemmas here show that the
    traversal finds the nearest hit that a brute-force scan over all shapes finds. */
module KdTreeSpec {
  import N = Numeric
  import opened Vectors
  import R = Rays
  import B = Boxes
  import H = Hits

  /** The axis of an internal node. */
  type SplitAxis = a: B.Axis | a != B.AxisNone witness B.AxisX

  /** A tree: a leaf keeps its shapes; an internal node keeps its plane and children
      (its own shape array is set to null). */
  datatype Kd<S> = KLeaf(shapes: seq<S>) | KSplit(axis: SplitAxis, point: real, left: Kd<S>, right: Kd<S>)

  // ---- sorting (List.Sort) and the median ----

  predicate IsSorted(s: seq<real>) {
    forall i, j :: 0 <= i < j < |s| ==> s[i] <= s[j]
  }

  /** `x` inserted before the first element not smaller than it. */
  function Insert(x: real, s: seq<real>): seq<real> {
    if |s| == 0 then [x]
    else if x <= s[0] then [x] + s
    else [s[0]] + Insert(x, s[1..])
  }

  /** `Insert` adds `x` to the values and keeps the others. */
  lemma {:induction false} InsertPermutes(x: real, s: seq<real>)
    ensures multiset(Insert(x, s)) == multiset(s) + multiset{x}
  {
    if |s| > 0 && x > s[0] {
      InsertPermutes(x, s[1..]);
      assert s == [s[0]] + s[1..];
      assert multiset(s) == multiset{s[0]} + multiset(s[1..]);
    }
  }

  /** `Insert` keeps an ascending sequence ascending. */
  lemma {:induction false} InsertSorted(x: real, s: seq<real>)
    requires IsSorted(s)
    ensures IsSorted(Insert(x, s))
  {
    if |s| > 0 && x > s[0] {
      var rest := Insert(x, s[1..]);
      InsertSorted(x, s[1..]);
      InsertPermutes(x, s[1..]);
      forall k | 0 <= k < |rest|
        ensures s[0] <= rest[k]
      {
        assert rest[k] in multiset(rest);
        if rest[k] != x {
          assert rest[k] in multiset(s[1..]);
          var j :| 0 <= j < |s[1..]| && s[1..][j] == rest[k];
          assert s[j + 1] == rest[k];
        }
      }
      assert Insert(x, s) == [s[0]] + rest;
    }
  }

  /** `List.Sort` on doubles: the values in ascending order. */
  function Sort(s: seq<real>): seq<real>
    decreases |s|
  {
    if |s| == 0 then [] else Insert(s[0], Sort(s[1..]))
  }

  /** `Sort` returns an ascending permutation of its input. */
  lemma {:induction false} SortSorts(s: seq<real>)
    ensures IsSorted(Sort(s)) && multiset(Sort(s)) == multiset(s)
    decreases |s|
  {
    if |s| > 0 {
      var x, rest := s[0], s[1..];
      var t := Sort(rest);
      assert Sort(s) == Insert(x, t);
      SortSorts(rest);
      InsertSorted(x, t);
      InsertPermutes(x, t);
      assert s == [x] + rest;
    }
  }

  /** The head of an ascending sequence is at most each of its elements. */
  lemma HeadLeast(s: seq<real>, x: real)
    requires IsSorted(s) && x in multiset(s)
    ensures s[0] <= x
  {
    var i :| 0 <= i < |s| && s[i] == x;
    if i > 0 {
      assert s[0] <= s[i];
    }
  }

  /** Two ascending sequences with the same elements are equal, so the median below does
      not depend on how the values were sorted. */
  lemma {:induction false} SortedUnique(a: seq<real>, b: seq<real>)
    requires IsSorted(a) && IsSorted(b) && multiset(a) == multiset(b)
    ensures a == b
    decreases |a|
  {
    assert |a| == |multiset(a)| == |multiset(b)| == |b|;
    if |a| > 0 {
      HeadLeast(a, b[0]);
      HeadLeast(b, a[0]);
      assert a[0] == b[0];
      assert a == [a[0]] + a[1..];
      assert b == [b[0]] + b[1..];
      assert multiset(a) == multiset([a[0]]) + multiset(a[1..]);
      assert multiset(b) == multiset([b[0]]) + multiset(b[1..]);
      assert multiset(a[1..]) == multiset(a) - multiset{a[0]};
      assert multiset(b[1..]) == multiset(b) - multiset{b[0]};
      assert IsSorted(a[1..]) && IsSorted(b[1..]);
      SortedUnique(a[1..], b[1..]);
    }
  }

  /** `Median(list)`: 0 for an empty list, the middle element of an odd-length one and
      the mean of the two middle elements of an even-length one. On a sorted list at least
      half the elements are at most the result and at least half are at least it. */
  function Median(list: seq<real>): (m: real)
    ensures |list| == 0 ==> m == 0.0
    ensures |list| % 2 == 1 ==> m == list[|list| / 2]
    ensures |list| > 0 && |list| % 2 == 0 ==> m == (list[|list| / 2 - 1] + list[|list| / 2]) / 2.0
    ensures IsSorted(list) ==> forall i :: 0 <= i <= (|list| - 1) / 2 ==> list[i] <= m
    ensures IsSorted(list) ==> forall i :: |list| / 2 <= i < |list| ==> m <= list[i]
  {
    var middle := |list| / 2;
    if |list| == 0 then 0.0
    else if |list| % 2 == 1 then list[middle]
    else (list[middle - 1] + list[middle]) / 2.0
  }

  // ---- the split candidates ----

  /** The coordinate of `v` along a split axis. */
  function Coord(v: Vector, axis: SplitAxis): real {
    B.Coord(v, axis)
  }

  /** The list `Split` fills along one axis: each shape's box's lower and upper
      coordinate, shape by shape. */
  function Coords<S>(shapes: seq<S>, axis: SplitAxis, bbox: S -> B.Box): seq<real>
    decreases |shapes|
  {
    if |shapes| == 0 then []
    else
      var b := bbox(shapes[|shapes| - 1]);
      Coords(shapes[..|shapes| - 1], axis, bbox) + [Coord(b.min, axis), Coord(b.max, axis)]
  }

  /** Whether `Box.Partition` sends a shape to the left (or the right) child. */
  predicate GoesTo<S>(s: S, axis: SplitAxis, point: real, bbox: S -> B.Box, toLeft: bool) {
    var flags := B.Partition(bbox(s), axis, point).1;
    if toLeft then flags.0 else flags.1
  }

  /** The shapes, in their order, that go to the left (or the right) child. */
  function Routed<S>(shapes: seq<S>, axis: SplitAxis, point: real, bbox: S -> B.Box, toLeft: bool): seq<S>
    decreases |shapes|
  {
    if |shapes| == 0 then []
    else
      var init := Routed(shapes[..|shapes| - 1], axis, point, bbox, toLeft);
      if GoesTo(shapes[|shapes| - 1], axis, point, bbox, toLeft) then init + [shapes[|shapes| - 1]]
      else init
  }

  /** A side holds exactly the shapes whose box reaches the plane from that side, and no
      more shapes than the node. A shape with a well-formed box goes to at least one side. */
  lemma {:induction false} RoutedProperties<S>(shapes: seq<S>, axis: SplitAxis, point: real, bbox: S -> B.Box)
    ensures forall s :: s in Routed(shapes, axis, point, bbox, true) <==>
      s in shapes && Coord(bbox(s).min, axis) <= point
    ensures forall s :: s in Routed(shapes, axis, point, bbox, false) <==>
      s in shapes && Coord(bbox(s).max, axis) >= point
    ensures |Routed(shapes, axis, point, bbox, true)| <= |shapes|
    ensures |Routed(shapes, axis, point, bbox, false)| <= |shapes|
    ensures forall s :: s in shapes && B.WellFormed(bbox(s)) ==>
      s in Routed(shapes, axis, point, bbox, true) || s in Routed(shapes, axis, point, bbox, false)
    decreases |shapes|
  {
    if |shapes| > 0 {
      var init := shapes[..|shapes| - 1];
      var last := shapes[|shapes| - 1];
      RoutedProperties(init, axis, point, bbox);
      assert shapes == init + [last];
      forall s | s in shapes && B.WellFormed(bbox(s))
        ensures s in Routed(shapes, axis, point, bbox, true) || s in Routed(shapes, axis, point, bbox, false)
      {
        var _ := B.Partition(bbox(s), axis, point);
      }
    }
  }

  /** `PartitionScore`: the larger of the two sides' sizes. */
  function Score<S>(shapes: seq<S>, axis: SplitAxis, point: real, bbox: S -> B.Box): (sc: int)
    ensures sc >= |Routed(shapes, axis, point, bbox, true)| && sc >= |Routed(shapes, axis, point, bbox, false)|
    ensures sc == |Routed(shapes, axis, point, bbox, true)| || sc == |Routed(shapes, axis, point, bbox, false)|
  {
    var left := |Routed(shapes, axis, point, bbox, true)|;
    var right := |Routed(shapes, axis, point, bbox, false)|;
    if left >= right then left else right
  }

  /** `(int)(n * 0.85)` for a shape count `n`: the truncation of `17 n / 20`. The double
      product lands within rounding of `17 n / 20`, which is either an integer or at least
      `1/20` away from one, so the truncation is the same. */
  function Threshold(n: nat): (t: nat)
    ensures n >= 8 ==> t < n
    ensures 20 * t <= 17 * n < 20 * t + 20
  {
    17 * n / 20
  }

  /** One step of the selection: a candidate replaces the best so far only when its score
      is strictly smaller. */
  function Better(best: (B.Axis, real, int), axis: SplitAxis, point: real, score: int): (b: (B.Axis, real, int))
    ensures b.2 <= best.2
  {
    if score < best.2 then (axis, point, score) else best
  }

  /** The axis, point and score `Split` picks: the medians of the three coordinate lists
      are tried on X, Y and Z in that order against the threshold. */
  function Choose<S>(shapes: seq<S>, bbox: S -> B.Box): (c: (B.Axis, real, int)) {
    var mx := Median(Sort(Coords(shapes, B.AxisX, bbox)));
    var my := Median(Sort(Coords(shapes, B.AxisY, bbox)));
    var mz := Median(Sort(Coords(shapes, B.AxisZ, bbox)));
    var c0 := (B.AxisNone, 0.0, Threshold(|shapes|) as int);
    var c1 := Better(c0, B.AxisX, mx, Score(shapes, B.AxisX, mx, bbox));
    var c2 := Better(c1, B.AxisY, my, Score(shapes, B.AxisY, my, bbox));
    Better(c2, B.AxisZ, mz, Score(shapes, B.AxisZ, mz, bbox))
  }

  /** The selection keeps the node a leaf exactly when no median split scores below the
      threshold; otherwise it picks the smallest score, the earlier axis on a tie, and its
      score is the chosen plane's. */
  lemma ChooseProperties<S>(shapes: seq<S>, bbox: S -> B.Box)
    ensures var c := Choose(shapes, bbox);
      var mx := Median(Sort(Coords(shapes, B.AxisX, bbox)));
      var my := Median(Sort(Coords(shapes, B.AxisY, bbox)));
      var mz := Median(Sort(Coords(shapes, B.AxisZ, bbox)));
      var (sx, sy, sz) := (Score(shapes, B.AxisX, mx, bbox), Score(shapes, B.AxisY, my, bbox),
                           Score(shapes, B.AxisZ, mz, bbox));
      var t := Threshold(|shapes|) as int;
      && (c.0 == B.AxisNone <==> sx >= t && sy >= t && sz >= t)
      && (c.0 == B.AxisX <==> sx < t && sx <= sy && sx <= sz)
      && (c.0 == B.AxisY <==> sy < t && sy < sx && sy <= sz)
      && (c.0 == B.AxisZ <==> sz < t && sz < sx && sz < sy)
      && (c.0 == B.AxisX ==> c.1 == mx && c.2 == sx)
      && (c.0 == B.AxisY ==> c.1 == my && c.2 == sy)
      && (c.0 == B.AxisZ ==> c.1 == mz && c.2 == sz)
  {
  }

  /** A chosen split leaves each child with fewer shapes than the node: each side holds
      at most the score, which is below `0.85 n`. */
  lemma ChooseShrinks<S>(shapes: seq<S>, bbox: S -> B.Box)
    requires |shapes| >= 8
    ensures var c := Choose(shapes, bbox);
      c.0 != B.AxisNone ==>
        |Routed(shapes, c.0, c.1, bbox, true)| < |shapes| && |Routed(shapes, c.0, c.1, bbox, false)| < |shapes|
  {
    ChooseProperties(shapes, bbox);
  }

  /** `Split(depth)` on a node holding `shapes`: fewer than 8 shapes, or no good median
      split, leave a leaf; otherwise both children are split in turn. */
  function Build<S>(shapes: seq<S>, bbox: S -> B.Box): Kd<S>
    decreases |shapes|
  {
    if |shapes| < 8 then KLeaf(shapes)
    else
      var c := Choose(shapes, bbox);
      if c.0 == B.AxisNone then KLeaf(shapes)
      else
        ChooseShrinks(shapes, bbox);
        KSplit(c.0, c.1, Build(Routed(shapes, c.0, c.1, bbox, true), bbox),
                         Build(Routed(shapes, c.0, c.1, bbox, false), bbox))
  }

  /** Nodes with fewer than 8 shapes are leaves, and an internal node's children are built
      from its two sides. */
  lemma BuildShape<S>(shapes: seq<S>, bbox: S -> B.Box)
    ensures |shapes| < 8 ==> Build(shapes, bbox) == KLeaf(shapes)
    ensures Build(shapes, bbox).KLeaf? ==> Build(shapes, bbox).shapes == shapes
    ensures Build(shapes, bbox).KSplit? ==>
      var n := Build(shapes, bbox);
      && Score(shapes, n.axis, n.point, bbox) < Threshold(|shapes|)
      && n.left == Build(Routed(shapes, n.axis, n.point, bbox, true), bbox)
      && n.right == Build(Routed(shapes, n.axis, n.point, bbox, false), bbox)
  {
    if |shapes| >= 8 {
      ChooseProperties(shapes, bbox);
    }
  }

  // ---- the traversal ----

  /** `IntersectShapes`: scanning the shapes in order, a hit replaces the best so far only
      when it is strictly nearer; the scan starts from `NoHit`. */
  function Nearest<S>(shapes: seq<S>, r: R.Ray, hit: (S, R.Ray) -> H.Hit<S>): H.Hit<S>
    decreases |shapes|
  {
    if |shapes| == 0 then H.NoHit()
    else
      var best := Nearest(shapes[..|shapes| - 1], r, hit);
      var h := hit(shapes[|shapes| - 1], r);
      if h.t < best.t then h else best
  }

  /** The scan returns a hit no farther than any shape's hit, and that hit is `NoHit` or
      the hit of the first shape at that distance, which is below `Hit.INF`. */
  lemma {:induction false} NearestProperties<S>(shapes: seq<S>, r: R.Ray, hit: (S, R.Ray) -> H.Hit<S>)
    ensures Nearest(shapes, r, hit).t <= H.HitInf
    ensures forall i :: 0 <= i < |shapes| ==> Nearest(shapes, r, hit).t <= hit(shapes[i], r).t
    ensures Nearest(shapes, r, hit) == H.NoHit() ||
      exists i :: 0 <= i < |shapes| && Nearest(shapes, r, hit) == hit(shapes[i], r) &&
        Nearest(shapes, r, hit).t < H.HitInf &&
        forall j :: 0 <= j < i ==> Nearest(shapes, r, hit).t < hit(shapes[j], r).t
    decreases |shapes|
  {
    if |shapes| > 0 {
      var init := shapes[..|shapes| - 1];
      NearestProperties(init, r, hit);
      var best := Nearest(init, r, hit);
      var h := hit(shapes[|shapes| - 1], r);
      forall i | 0 <= i < |shapes| - 1
        ensures hit(shapes[i], r) == hit(init[i], r)
      {
      }
      if h.t < best.t {
        assert Nearest(shapes, r, hit) == hit(shapes[|shapes| - 1], r);
      } else if best != H.NoHit() {
        var i :| 0 <= i < |init| && best == hit(init[i], r) && best.t < H.HitInf &&
          forall j :: 0 <= j < i ==> best.t < hit(init[j], r).t;
        assert Nearest(shapes, r, hit) == hit(shapes[i], r);
      }
    }
  }

  /** Which child is nearer the ray's origin along the split axis: the left one when the
      origin is below the plane, or on it with a direction that does not go up. */
  predicate LeftFirst(r: R.Ray, axis: SplitAxis, point: real) {
    var (o, d) := (Coord(r.origin, axis), Coord(r.direction, axis));
    o < point || (o == point && d <= 0.0)
  }

  /** `tsplit`: the ray parameter at the split plane, with IEEE division. */
  function TSplit(r: R.Ray, axis: SplitAxis, point: real): N.Float {
    N.Div(point - Coord(r.origin, axis), Coord(r.direction, axis))
  }

  /** `Node.Intersect(r, tmin, tmax)`: a leaf scans its shapes. An internal node visits
      only the near child when the plane is beyond `tmax` or not ahead of the origin, only
      the far child when the plane is before `tmin`, and otherwise the near child up to the
      plane, and the far child beyond it only when the near child has no hit up to the
      plane; of two hits the nearer one wins, the near child's on a tie. */
  ghost function Query<S>(n: Kd<S>, r: R.Ray, tmin: N.Float, tmax: N.Float, hit: (S, R.Ray) -> H.Hit<S>): H.Hit<S>
    decreases n
  {
    match n
    case KLeaf(shapes) => Nearest(shapes, r, hit)
    case KSplit(axis, point, left, right) =>
      var tsplit := TSplit(r, axis, point);
      var (first, second) := if LeftFirst(r, axis, point) then (left, right) else (right, left);
      if N.Less(tmax, tsplit) || N.LessEq(tsplit, N.Num(0.0)) then Query(first, r, tmin, tmax, hit)
      else if N.Less(tsplit, tmin) then Query(second, r, tmin, tmax, hit)
      else
        var h1 := Query(first, r, tmin, tsplit, hit);
        if N.LessEq(N.Num(h1.t), tsplit) then h1
        else
          var h2 := Query(second, r, tsplit, N.FMin(tmax, N.Num(h1.t)), hit);
          if h1.t <= h2.t then h1 else h2
  }

  /** `Tree.Intersect(r)`: no hit when the ray misses the root box (`tmax < tmin`) or the
      box lies behind the origin (`tmax <= 0`); otherwise the root's traversal over the box
      interval. */
  ghost function TreeQuery<S>(box: B.Box, root: Kd<S>, r: R.Ray, hit: (S, R.Ray) -> H.Hit<S>): H.Hit<S> {
    var (tmin, tmax) := B.Intersect(box, r);
    if N.Less(tmax, tmin) || N.LessEq(tmax, N.Num(0.0)) then H.NoHit()
    else Query(root, r, tmin, tmax, hit)
  }

  /** The root box `BoxForShapes` computes. */
  function RootBox<S>(shapes: seq<S>, bbox: S -> B.Box): B.Box {
    if |shapes| == 0 then B.Empty else B.Hull(shapes, bbox)
  }

  // ---- the traversal finds the nearest hit ----

  /** The side of the plane a ray point falls on, counted from the near child: at most
      the plane's coordinate for a left-first ray, at least it otherwise. */
  predicate NearSide(leftFirst: bool, x: real, point: real) {
    if leftFirst then x <= point else x >= point
  }

  predicate FarSide(leftFirst: bool, x: real, point: real) {
    if leftFirst then x >= point else x <= point
  }

  /** Along one axis: a point of the ray ahead of the origin and not beyond `tsplit`, or any
      such point when `tsplit` is not ahead of the origin (or is NaN), is on the near side;
      a point beyond a `tsplit` ahead of the origin is on the far side. */
  lemma Sides(o: real, d: real, point: real, t: real)
    requires t > 0.0
    ensures var ts := N.Div(point - o, d); var lf := o < point || (o == point && d <= 0.0);
      (N.LessEq(N.Num(t), ts) || N.LessEq(ts, N.Num(0.0)) || ts.NaN?) ==> NearSide(lf, o + d * t, point)
    ensures var ts := N.Div(point - o, d); var lf := o < point || (o == point && d <= 0.0);
      (!N.LessEq(N.Num(t), ts) && !N.LessEq(ts, N.Num(0.0))) ==> FarSide(lf, o + d * t, point)
  {
    if d != 0.0 {
      var q := (point - o) / d;
      assert d * q == point - o;
      assert o + d * t - point == d * (t - q);
      if d > 0.0 {
        if t < q {
          N.MulPos(d, q - t);
        } else if t > q {
          N.MulPos(d, t - q);
        }
        if q > 0.0 {
          N.MulPos(d, q);
        } else if q < 0.0 {
          N.MulPos(d, -q);
        }
      } else {
        if t < q {
          N.MulPos(-d, q - t);
        } else if t > q {
          N.MulPos(-d, t - q);
        }
        if q > 0.0 {
          N.MulPos(-d, q);
        } else if q < 0.0 {
          N.MulPos(-d, -q);
        }
      }
    }
  }

  /** The coordinate of a ray point along an axis. */
  lemma CoordPosition(r: R.Ray, t: real, axis: SplitAxis)
    ensures Coord(R.Position(r, t), axis) == Coord(r.origin, axis) + Coord(r.direction, axis) * t
  {
  }

  /** The hypothesis of the oracle: each shape the ray hits is hit ahead of the origin and
      inside the shape's bounding box. */
  ghost predicate HitInBox<S>(s: S, r: R.Ray, bbox: S -> B.Box, hit: (S, R.Ray) -> H.Hit<S>) {
    var h := hit(s, r);
    h.t < H.HitInf ==> h.t > 0.0 && B.Contains(bbox(s), R.Position(r, h.t))
  }

  /** The shapes routed to the child the ray reaches first, and to the other one. */
  function NearShapes<S>(shapes: seq<S>, r: R.Ray, axis: SplitAxis, point: real, bbox: S -> B.Box): seq<S> {
    Routed(shapes, axis, point, bbox, LeftFirst(r, axis, point))
  }

  function FarShapes<S>(shapes: seq<S>, r: R.Ray, axis: SplitAxis, point: real, bbox: S -> B.Box): seq<S> {
    Routed(shapes, axis, point, bbox, !LeftFirst(r, axis, point))
  }

  /** A shape hit ahead of the origin, inside its box, at a point not beyond the plane
      (or anywhere, when the plane is not ahead of the origin) was routed to the near
      child; one hit beyond a plane ahead of the origin was routed to the far child. */
  lemma Placed<S>(shapes: seq<S>, axis: SplitAxis, point: real, bbox: S -> B.Box, s: S, r: R.Ray, t: real)
    requires s in shapes && t > 0.0 && B.Contains(bbox(s), R.Position(r, t))
    ensures var ts := TSplit(r, axis, point);
      (N.LessEq(N.Num(t), ts) || N.LessEq(ts, N.Num(0.0)) || ts.NaN?) ==> s in NearShapes(shapes, r, axis, point, bbox)
    ensures var ts := TSplit(r, axis, point);
      (!N.LessEq(N.Num(t), ts) && !N.LessEq(ts, N.Num(0.0))) ==> s in FarShapes(shapes, r, axis, point, bbox)
  {
    RoutedProperties(shapes, axis, point, bbox);
    CoordPosition(r, t, axis);
    Sides(Coord(r.origin, axis), Coord(r.direction, axis), point, t);
  }

  /** `n` routes `shapes` as `Split` does: a leaf holds them all, and an internal node's
      children route the node's two sides. */
  ghost predicate Partitioned<S>(n: Kd<S>, shapes: seq<S>, bbox: S -> B.Box)
    decreases n
  {
    match n
    case KLeaf(ss) => ss == shapes
    case KSplit(axis, point, left, right) =>
      Partitioned(left, Routed(shapes, axis, point, bbox, true), bbox) &&
      Partitioned(right, Routed(shapes, axis, point, bbox, false), bbox)
  }

  /** The tree `Split` builds routes its shapes. */
  lemma {:induction false} BuildPartitioned<S>(shapes: seq<S>, bbox: S -> B.Box)
    ensures Partitioned(Build(shapes, bbox), shapes, bbox)
    decreases |shapes|
  {
    var n := Build(shapes, bbox);
    BuildShape(shapes, bbox);
    if n.KSplit? {
      ChooseShrinks(shapes, bbox);
      BuildPartitioned(Routed(shapes, n.axis, n.point, bbox, true), bbox);
      BuildPartitioned(Routed(shapes, n.axis, n.point, bbox, false), bbox);
    }
  }

  /** The shapes of `n`'s leaves, from the left. */
  ghost function Leaves<S>(n: Kd<S>): seq<S>
    decreases n
  {
    match n
    case KLeaf(ss) => ss
    case KSplit(_, _, left, right) => Leaves(left) + Leaves(right)
  }

  /** `s` is held by some leaf of `n`. */
  ghost predicate Holds<S>(n: Kd<S>, s: S) {
    s in Leaves(n)
  }

  /** A routing tree holds only its own shapes. */
  lemma {:induction false} HoldsOwn<S>(n: Kd<S>, shapes: seq<S>, bbox: S -> B.Box, s: S)
    requires Partitioned(n, shapes, bbox) && Holds(n, s)
    ensures s in shapes
    decreases n
  {
    if n.KSplit? {
      RoutedProperties(shapes, n.axis, n.point, bbox);
      if Holds(n.left, s) {
        HoldsOwn(n.left, Routed(shapes, n.axis, n.point, bbox, true), bbox, s);
      } else {
        HoldsOwn(n.right, Routed(shapes, n.axis, n.point, bbox, false), bbox, s);
      }
    }
  }

  /** `h` is `NoHit` or the hit, below `Hit.INF`, of a shape held by `n`. */
  ghost predicate Found<S>(h: H.Hit<S>, n: Kd<S>, r: R.Ray, hit: (S, R.Ray) -> H.Hit<S>) {
    h == H.NoHit() ||
    exists i :: 0 <= i < |Leaves(n)| && h == hit(Leaves(n)[i], r) && h.t < H.HitInf
  }

  /** Soundness: the traversal returns `NoHit` or the hit, below `Hit.INF`, of a shape
      held by the tree. */
  lemma {:induction false} QuerySound<S>(n: Kd<S>, hit: (S, R.Ray) -> H.Hit<S>,
                                         r: R.Ray, tmin: N.Float, tmax: N.Float)
    ensures Found(Query(n, r, tmin, tmax, hit), n, r, hit)
    decreases n
  {
    var h := Query(n, r, tmin, tmax, hit);
    match n
    case KLeaf(shapes) =>
      NearestProperties(shapes, r, hit);
      if h != H.NoHit() {
        var i :| 0 <= i < |shapes| && h == hit(shapes[i], r) && h.t < H.HitInf;
        assert Leaves(n)[i] == shapes[i];
      }
    case KSplit(axis, point, left, right) =>
      var tsplit := TSplit(r, axis, point);
      var (first, second) := if LeftFirst(r, axis, point) then (left, right) else (right, left);
      if N.Less(tmax, tsplit) || N.LessEq(tsplit, N.Num(0.0)) {
        FoundChild(n, first, hit, r, tmin, tmax);
      } else if N.Less(tsplit, tmin) {
        FoundChild(n, second, hit, r, tmin, tmax);
      } else {
        var h1 := Query(first, r, tmin, tsplit, hit);
        FoundChild(n, first, hit, r, tmin, tsplit);
        if !N.LessEq(N.Num(h1.t), tsplit) {
          FoundChild(n, second, hit, r, tsplit, N.FMin(tmax, N.Num(h1.t)));
        }
      }
  }

  /** A child's answer is found in its parent. */
  lemma {:induction false} FoundChild<S>(n: Kd<S>, c: Kd<S>, hit: (S, R.Ray) -> H.Hit<S>,
                                         r: R.Ray, tmin: N.Float, tmax: N.Float)
    requires n.KSplit? && (c == n.left || c == n.right)
    ensures Found(Query(c, r, tmin, tmax, hit), n, r, hit)
    decreases n, 0
  {
    var h := Query(c, r, tmin, tmax, hit);
    QuerySound(c, hit, r, tmin, tmax);
    if h != H.NoHit() {
      var i :| 0 <= i < |Leaves(c)| && h == hit(Leaves(c)[i], r) && h.t < H.HitInf;
      if c == n.left {
        assert Leaves(n)[i] == Leaves(c)[i];
      } else {
        assert Leaves(n)[|Leaves(n.left)| + i] == Leaves(c)[i];
      }
    }
  }

  /** Completeness: the traversal of a tree routing `shapes` returns a hit no farther than
      the hit of any of those shapes whose hit lies in its box, ahead of the origin and
      within the interval from `tmin` to `tmax`. */
  lemma {:induction false} QueryComplete<S>(n: Kd<S>, shapes: seq<S>, bbox: S -> B.Box,
                                            hit: (S, R.Ray) -> H.Hit<S>,
                                            r: R.Ray, tmin: N.Float, tmax: N.Float, s: S)
    requires Partitioned(n, shapes, bbox)
    requires s in shapes && HitInBox(s, r, bbox, hit) && hit(s, r).t < H.HitInf
    requires N.Within(hit(s, r).t, tmin, tmax)
    ensures Query(n, r, tmin, tmax, hit).t <= hit(s, r).t
    decreases n
  {
    var t := hit(s, r).t;
    match n
    case KLeaf(_) =>
      var i :| 0 <= i < |shapes| && shapes[i] == s;
      NearestProperties(shapes, r, hit);
    case KSplit(axis, point, left, right) =>
      var lf := LeftFirst(r, axis, point);
      var (first, second) := if lf then (left, right) else (right, left);
      var fs := NearShapes(shapes, r, axis, point, bbox);
      var ss := FarShapes(shapes, r, axis, point, bbox);
      assert Partitioned(first, fs, bbox) && Partitioned(second, ss, bbox);
      var tsplit := TSplit(r, axis, point);
      Placed(shapes, axis, point, bbox, s, r, t);
      if N.Less(tmax, tsplit) || N.LessEq(tsplit, N.Num(0.0)) {
        if N.Less(tmax, tsplit) {
          N.LessTotal(N.Num(t), tmax);
          N.LessTransitive(N.Num(t), tmax, tsplit);
        }
        QueryComplete(first, fs, bbox, hit, r, tmin, tmax, s);
      } else if N.Less(tsplit, tmin) {
        N.LessTotal(N.Num(t), tmin);
        N.LessTransitive(tsplit, tmin, N.Num(t));
        QueryComplete(second, ss, bbox, hit, r, tmin, tmax, s);
      } else if N.LessEq(N.Num(t), tsplit) {
        QueryComplete(first, fs, bbox, hit, r, tmin, tsplit, s);
      } else {
        var h1 := Query(first, r, tmin, tsplit, hit);
        if !N.LessEq(N.Num(h1.t), tsplit) && h1.t >= t {
          var hi := N.FMin(tmax, N.Num(h1.t));
          assert N.Within(t, tsplit, hi);
          QueryComplete(second, ss, bbox, hit, r, tsplit, hi, s);
        } else if N.LessEq(N.Num(h1.t), tsplit) {
          N.LessTotal(N.Num(t), tsplit);
        }
      }
  }

  /** The oracle: when every hit lies ahead of the origin and inside its shape's bounding
      box, the tree built from `shapes` and its root box return a hit exactly as near as
      the brute-force scan over all shapes, and that hit is `NoHit` or some shape's hit. */
  lemma TreeMatchesBruteForce<S>(shapes: seq<S>, bbox: S -> B.Box, hit: (S, R.Ray) -> H.Hit<S>, r: R.Ray)
    requires forall s :: s in shapes ==> HitInBox(s, r, bbox, hit)
    ensures var h := TreeQuery(RootBox(shapes, bbox), Build(shapes, bbox), r, hit);
      h.t == Nearest(shapes, r, hit).t &&
      (h == H.NoHit() || exists i :: 0 <= i < |shapes| && h == hit(shapes[i], r))
  {
    var box := RootBox(shapes, bbox);
    var root := Build(shapes, bbox);
    var (tmin, tmax) := B.Intersect(box, r);
    var m := Nearest(shapes, r, hit);
    var h := TreeQuery(box, root, r, hit);
    NearestProperties(shapes, r, hit);
    BuildPartitioned(shapes, bbox);
    QuerySound(root, hit, r, tmin, tmax);
    var q := Query(root, r, tmin, tmax, hit);
    if q != H.NoHit() {
      var k :| 0 <= k < |Leaves(root)| && q == hit(Leaves(root)[k], r) && q.t < H.HitInf;
      var s := Leaves(root)[k];
      HoldsOwn(root, shapes, bbox, s);
      var i :| 0 <= i < |shapes| && shapes[i] == s;
    }
    if m != H.NoHit() {
      var i :| 0 <= i < |shapes| && m == hit(shapes[i], r) && m.t < H.HitInf &&
        forall j :: 0 <= j < i ==> m.t < hit(shapes[j], r).t;
      var s := shapes[i];
      assert HitInBox(s, r, bbox, hit);
      var p := R.Position(r, m.t);
      B.HullFromEncloses(bbox(shapes[0]), shapes, bbox);
      B.ContainsProperties(bbox(s), box, p);
      B.IntersectWithin(box, r, m.t);
      QueryComplete(root, shapes, bbox, hit, r, tmin, tmax, s);
    }
  }
}
