/** The k-d tree of Tree.cs as the source builds it: a `Tree` holding its root box and
    root `Node`, and nodes that `Split` turns from leaves into internal nodes in place.
    Each node carries as ghost state the value (module KdTreeSpec) it stands for. */
module KdTree {
  import N = Numeric
  import opened Vectors
  import R = Rays
  import B = Boxes
  import H = Hits
  import opened KdTreeSpec

  class Node<S> {
    var axis: B.Axis
    var point: real
    var shapes: seq<S>
    var left: Node?<S>
    var right: Node?<S>
    ghost var model: Kd<S>
    ghost var Repr: set<object>

    /** A leaf has no children and stands for its shapes; an internal node has a split
        axis, two children over disjoint parts of the heap, no shapes of its own and
        stands for its plane and its children's trees. */
    ghost predicate Valid()
      reads this, Repr
      decreases Repr
    {
      this in Repr &&
      (axis == B.AxisNone ==> left == null && right == null && Repr == {this} && model == KLeaf(shapes)) &&
      (axis != B.AxisNone ==>
        left != null && right != null &&
        left in Repr && right in Repr && left.Repr <= Repr && right.Repr <= Repr &&
        this !in left.Repr && this !in right.Repr &&
        left.Valid() && right.Valid() && shapes == [] &&
        model == KSplit(axis, point, left.model, right.model))
    }

    /** `NewNode(shapes)`: a leaf over `shapes`. */
    constructor NewNode(shapes: seq<S>)
      ensures Valid() && fresh(Repr)
      ensures this.shapes == shapes && axis == B.AxisNone && model == KLeaf(shapes)
    {
      axis := B.AxisNone;
      point := 0.0;
      this.shapes := shapes;
      left := null;
      right := null;
      model := KLeaf(shapes);
      Repr := {this};
    }

    /** `IntersectShapes(r)`: the running nearest hit over the node's shapes. */
    method IntersectShapes(r: R.Ray, hit: (S, R.Ray) -> H.Hit<S>) returns (h: H.Hit<S>)
      ensures h == Nearest(shapes, r, hit)
    {
      h := H.NoHit();
      for i := 0 to |shapes|
        invariant h == Nearest(shapes[..i], r, hit)
      {
        assert shapes[..i + 1][..i] == shapes[..i];
        var candidate := hit(shapes[i], r);
        if candidate.t < h.t {
          h := candidate;
        }
      }
      assert shapes[..|shapes|] == shapes;
    }

    /** Where the ray crosses the node's plane, and whether the left child is the near
        one: the left child is near when the origin is below the plane, or on it and the
        ray does not point up the axis. */
    method SplitPlane(r: R.Ray) returns (tsplit: N.Float, leftFirst: bool)
      requires axis != B.AxisNone
      ensures tsplit == TSplit(r, axis, point) && leftFirst == LeftFirst(r, axis, point)
    {
      match axis {
        case AxisX =>
          tsplit := N.Div(point - r.origin.x, r.direction.x);
          leftFirst := r.origin.x < point || (r.origin.x == point && r.direction.x <= 0.0);
        case AxisY =>
          tsplit := N.Div(point - r.origin.y, r.direction.y);
          leftFirst := r.origin.y < point || (r.origin.y == point && r.direction.y <= 0.0);
        case AxisZ =>
          tsplit := N.Div(point - r.origin.z, r.direction.z);
          leftFirst := r.origin.z < point || (r.origin.z == point && r.direction.z <= 0.0);
      }
    }

    /** `Intersect(r, tmin, tmax)`: the three-case front-to-back traversal. The source
        keeps `tsplit` and `leftFirst` in fields of the node; they are locals here. */
    method Intersect(r: R.Ray, tmin: N.Float, tmax: N.Float, hit: (S, R.Ray) -> H.Hit<S>) returns (h: H.Hit<S>)
      requires Valid()
      ensures h == Query(model, r, tmin, tmax, hit)
      decreases Repr
    {
      if axis == B.AxisNone {
        h := IntersectShapes(r, hit);
        return;
      }
      var tsplit, leftFirst := SplitPlane(r);
      var first, second;
      if leftFirst {
        first, second := left, right;
      } else {
        first, second := right, left;
      }
      if N.Less(tmax, tsplit) || N.LessEq(tsplit, N.Num(0.0)) {
        h := first.Intersect(r, tmin, tmax, hit);
      } else if N.Less(tsplit, tmin) {
        h := second.Intersect(r, tmin, tmax, hit);
      } else {
        var h1 := first.Intersect(r, tmin, tsplit, hit);
        if N.LessEq(N.Num(h1.t), tsplit) {
          return h1;
        }
        var h2 := second.Intersect(r, tsplit, N.FMin(tmax, N.Num(h1.t)), hit);
        if h1.t <= h2.t {
          h := h1;
        } else {
          h := h2;
        }
      }
    }

    /** `PartitionScore(axis, point)`: counts the shapes going left and right. */
    method PartitionScore(axis: SplitAxis, point: real, bbox: S -> B.Box) returns (score: int)
      ensures score == Score(shapes, axis, point, bbox)
    {
      var left, right := 0, 0;
      for i := 0 to |shapes|
        invariant left == |Routed(shapes[..i], axis, point, bbox, true)|
        invariant right == |Routed(shapes[..i], axis, point, bbox, false)|
      {
        assert shapes[..i + 1][..i] == shapes[..i];
        var flags := B.Partition(bbox(shapes[i]), axis, point).1;
        if flags.0 {
          left := left + 1;
        }
        if flags.1 {
          right := right + 1;
        }
      }
      assert shapes[..|shapes|] == shapes;
      if left >= right {
        score := left;
      } else {
        score := right;
      }
    }

    /** `Partition(size, axis, point)`: the shapes going left and those going right, in
        order; `size` is not used. */
    method Partition(size: int, axis: SplitAxis, point: real, bbox: S -> B.Box) returns (left: seq<S>, right: seq<S>)
      ensures left == Routed(shapes, axis, point, bbox, true)
      ensures right == Routed(shapes, axis, point, bbox, false)
    {
      left, right := [], [];
      for i := 0 to |shapes|
        invariant left == Routed(shapes[..i], axis, point, bbox, true)
        invariant right == Routed(shapes[..i], axis, point, bbox, false)
      {
        assert shapes[..i + 1][..i] == shapes[..i];
        var flags := B.Partition(bbox(shapes[i]), axis, point).1;
        if flags.0 {
          left := left + [shapes[i]];
        }
        if flags.1 {
          right := right + [shapes[i]];
        }
      }
      assert shapes[..|shapes|] == shapes;
    }

    /** The three coordinate lists `Split` sorts: each shape's box's lower and upper
        coordinate along X, Y and Z. */
    method CoordinateLists(bbox: S -> B.Box) returns (xs: seq<real>, ys: seq<real>, zs: seq<real>)
      ensures xs == Coords(shapes, B.AxisX, bbox)
      ensures ys == Coords(shapes, B.AxisY, bbox)
      ensures zs == Coords(shapes, B.AxisZ, bbox)
    {
      xs, ys, zs := [], [], [];
      for i := 0 to |shapes|
        invariant xs == Coords(shapes[..i], B.AxisX, bbox)
        invariant ys == Coords(shapes[..i], B.AxisY, bbox)
        invariant zs == Coords(shapes[..i], B.AxisZ, bbox)
      {
        assert shapes[..i + 1][..i] == shapes[..i];
        var box := bbox(shapes[i]);
        xs := xs + [box.min.x, box.max.x];
        ys := ys + [box.min.y, box.max.y];
        zs := zs + [box.min.z, box.max.z];
      }
      assert shapes[..|shapes|] == shapes;
    }

    /** The split `Split` selects: the median of each sorted coordinate list is scored,
        X first, and replaces the best so far only when it scores strictly lower, starting
        from the threshold `(int)(n * 0.85)`. */
    method SelectSplit(bbox: S -> B.Box) returns (bestAxis: B.Axis, bestPoint: real, best: int)
      ensures (bestAxis, bestPoint, best) == Choose(shapes, bbox)
    {
      var xs, ys, zs := CoordinateLists(bbox);
      xs, ys, zs := Sort(xs), Sort(ys), Sort(zs);
      var mx, my, mz := Median(xs), Median(ys), Median(zs);
      best := Threshold(|shapes|) as int;
      bestAxis := B.AxisNone;
      bestPoint := 0.0;
      var sx := PartitionScore(B.AxisX, mx, bbox);
      if sx < best {
        best, bestAxis, bestPoint := sx, B.AxisX, mx;
      }
      var sy := PartitionScore(B.AxisY, my, bbox);
      if sy < best {
        best, bestAxis, bestPoint := sy, B.AxisY, my;
      }
      var sz := PartitionScore(B.AxisZ, mz, bbox);
      if sz < best {
        best, bestAxis, bestPoint := sz, B.AxisZ, mz;
      }
    }

    /** `Split(depth)`: the leaf becomes the tree `Build` describes for its shapes; every
        node below it is new. */
    method Split(depth: int, bbox: S -> B.Box)
      requires Valid() && axis == B.AxisNone
      modifies this
      ensures Valid() && fresh(Repr - {this})
      ensures model == Build(old(shapes), bbox)
      decreases |shapes|, 1
    {
      if |shapes| < 8 {
        return;
      }
      var bestAxis, bestPoint, best := SelectSplit(bbox);
      if bestAxis == B.AxisNone {
        return;
      }
      var l, r := Partition(best, bestAxis, bestPoint, bbox);
      BuildShape(shapes, bbox);
      ChooseShrinks(shapes, bbox);
      SplitAt(depth, bbox, bestAxis, bestPoint, l, r);
    }

    /** The recursive part of `Split`: the two children are built on `l` and `r` and split
        one level deeper, and this node becomes their parent. */
    method SplitAt(depth: int, bbox: S -> B.Box, bestAxis: SplitAxis, bestPoint: real, l: seq<S>, r: seq<S>)
      requires Valid() && axis == B.AxisNone
      requires |l| < |shapes| && |r| < |shapes|
      modifies this
      ensures Valid() && fresh(Repr - {this})
      ensures model == KSplit(bestAxis, bestPoint, Build(l, bbox), Build(r, bbox))
      decreases |shapes|, 0
    {
      var newLeft := NewChild(depth, bbox, l);
      var newRight := NewChild(depth, bbox, r);
      Attach(bestAxis, bestPoint, newLeft, newRight);
    }

    /** A new leaf over `shapes`, split one level below `depth`. */
    static method NewChild(depth: int, bbox: S -> B.Box, shapes: seq<S>) returns (n: Node<S>)
      ensures n.Valid() && fresh(n.Repr) && n.model == Build(shapes, bbox)
      decreases |shapes|, 2
    {
      n := new Node.NewNode(shapes);
      n.Split(depth + 1, bbox);
    }

    /** Turns this node into an internal node over two valid children and drops its list. */
    method Attach(bestAxis: SplitAxis, bestPoint: real, l: Node<S>, r: Node<S>)
      requires l.Valid() && r.Valid() && this !in l.Repr && this !in r.Repr
      modifies this
      ensures Valid() && Repr == {this} + l.Repr + r.Repr
      ensures model == KSplit(bestAxis, bestPoint, l.model, r.model)
      ensures left == l && right == r && l.model == old(l.model) && r.model == old(r.model)
    {
      axis := bestAxis;
      point := bestPoint;
      left := l;
      right := r;
      shapes := [];
      Repr := {this} + left.Repr + right.Repr;
      model := KSplit(bestAxis, bestPoint, left.model, right.model);
      StillValid(l);
      StillValid(r);
    }

    /** A node none of whose objects changed is still valid and stands for the same tree. */
    twostate lemma StillValid(n: Node<S>)
      requires old(n.Valid()) && unchanged(old(n.Repr))
      ensures n.Valid() && n.Repr == old(n.Repr) && n.model == old(n.model)
    {
    }
  }

  class Tree<S> {
    var box: B.Box
    var root: Node<S>
    /** The shapes the tree was built from, and their bounding boxes. */
    ghost var shapes: seq<S>
    ghost var bbox: S -> B.Box
    ghost var Repr: set<object>

    ghost predicate Valid()
      reads this, Repr
    {
      this in Repr && root in Repr && root.Repr <= Repr && this !in root.Repr &&
      root.Valid() && box == RootBox(shapes, bbox) && root.model == Build(shapes, bbox)
    }

    /** `NewTree(shapes)`: the box around all shapes and the root split from a leaf
        holding them all. */
    constructor NewTree(shapes: seq<S>, bbox: S -> B.Box)
      ensures Valid() && fresh(Repr)
      ensures this.shapes == shapes && this.bbox == bbox
    {
      var b := B.BoxForShapes(shapes, bbox);
      var node := new Node.NewNode(shapes);
      node.Split(0, bbox);
      box := b;
      root := node;
      this.shapes := shapes;
      this.bbox := bbox;
      Repr := {this} + node.Repr;
    }

    /** `Intersect(r)`: no hit when the ray misses the root box or the box is behind it,
        otherwise the root's traversal. When every hit lies ahead of the origin and in its
        shape's box, that is as near as the nearest hit over all shapes. */
    method Intersect(r: R.Ray, hit: (S, R.Ray) -> H.Hit<S>) returns (h: H.Hit<S>)
      requires Valid()
      ensures h == TreeQuery(RootBox(shapes, bbox), Build(shapes, bbox), r, hit)
      ensures (forall s :: s in shapes ==> HitInBox(s, r, bbox, hit)) ==> h.t == Nearest(shapes, r, hit).t
    {
      ghost var good := forall s :: s in shapes ==> HitInBox(s, r, bbox, hit);
      if good {
        TreeMatchesBruteForce(shapes, bbox, hit, r);
      }
      var (tmin, tmax) := B.Intersect(box, r);
      if N.Less(tmax, tmin) || N.LessEq(tmax, N.Num(0.0)) {
        return H.NoHit();
      }
      h := root.Intersect(r, tmin, tmax, hit);
    }
  }
}
