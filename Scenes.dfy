/** The scene container of Scene.cs: append-only shape and light lists, a k-d tree built
    once on demand, and a count of the rays traced. */
module Scenes {
  import opened Vectors
  import R = Rays
  import B = Boxes
  import M = Materials
  import H = Hits
  import KdTreeSpec
  import KdTree

  /** A shape is a light when its material at the zero vector emits. */
  predicate IsLight<S>(ops: H.ShapeOps<S>, s: S) {
    ops.materialAt(s, Zero).emittance > 0.0
  }

  /** The lights among `shapes`, in order. */
  function LightsOf<S>(ops: H.ShapeOps<S>, shapes: seq<S>): seq<S> {
    if |shapes| == 0 then []
    else
      var last := shapes[|shapes| - 1];
      LightsOf(ops, shapes[..|shapes| - 1]) + (if IsLight(ops, last) then [last] else [])
  }

  /** The lights are exactly the emitting shapes, and there are no more of them than
      shapes. */
  lemma {:induction false} LightsOfProperties<S>(ops: H.ShapeOps<S>, shapes: seq<S>)
    ensures forall s :: s in LightsOf(ops, shapes) <==> s in shapes && IsLight(ops, s)
    ensures |LightsOf(ops, shapes)| <= |shapes|
  {
    if |shapes| > 0 {
      var init := shapes[..|shapes| - 1];
      LightsOfProperties(ops, init);
      assert shapes == init + [shapes[|shapes| - 1]];
    }
  }

  /** The range of C#'s 32-bit `int`. */
  const IntMin: int := -0x8000_0000
  const IntMax: int := 0x7fff_ffff

  /** `n++` on a 32-bit `int` (unchecked, the C# default): one more, except that one past
      `int.MaxValue` wraps around to `int.MinValue`; the result agrees with `n + 1`
      modulo 2^32. */
  function Increment(n: int): (m: int)
    ensures IntMin <= m <= IntMax
    ensures IntMin <= n < IntMax ==> m == n + 1
    ensures n == IntMax ==> m == IntMin
    ensures (m - (n + 1)) % 0x1_0000_0000 == 0
  {
    (n + 1 - IntMin) % 0x1_0000_0000 + IntMin
  }

  class Scene<S> {
    /** The shapes' interface methods (the `IShape` calls), fixed for the scene. */
    const ops: H.ShapeOps<S>
    var shapes: seq<S>
    var lights: seq<S>
    var tree: KdTree.Tree?<S>
    var rays: int
    ghost var Repr: set<object>

    /** The lights are the emitting shapes, and a built tree indexes a prefix of the
        shapes: those present at the first `Compile`. */
    ghost predicate Valid()
      reads this, Repr
    {
      this in Repr &&
      lights == LightsOf(ops, shapes) &&
      (tree != null ==>
        tree in Repr && tree.Repr <= Repr && this !in tree.Repr && tree.Valid() &&
        tree.shapes <= shapes && tree.bbox == ops.bbox)
    }

    /** `Scene()`: no shapes, no lights, no tree. */
    constructor Init(ops: H.ShapeOps<S>)
      ensures Valid() && fresh(Repr)
      ensures this.ops == ops && shapes == [] && lights == [] && tree == null && rays == 0
    {
      this.ops := ops;
      shapes := [];
      lights := [];
      tree := null;
      rays := 0;
      Repr := {this};
    }

    /** `Add(p)`: `p` goes at the end of the shapes, and at the end of the lights when it
        emits. */
    method Add(p: S)
      requires Valid()
      modifies this
      ensures Valid() && Repr == old(Repr)
      ensures shapes == old(shapes) + [p]
      ensures lights == old(lights) + (if IsLight(ops, p) then [p] else [])
      ensures tree == old(tree) && rays == old(rays)
    {
      assert (shapes + [p])[..|shapes + [p]| - 1] == shapes;
      shapes := shapes + [p];
      if ops.materialAt(p, Zero).emittance > 0.0 {
        lights := lights + [p];
      }
    }

    /** `Compile()`: builds the tree over the current shapes when there is none yet; once
        built, the tree is kept. */
    method Compile()
      requires Valid()
      modifies this
      ensures Valid() && fresh(Repr - old(Repr))
      ensures tree != null
      ensures old(tree) != null ==> tree == old(tree)
      ensures old(tree) == null ==> fresh(tree) && tree.shapes == shapes
      ensures shapes == old(shapes) && lights == old(lights) && rays == old(rays)
    {
      if tree == null {
        tree := new KdTree.Tree.NewTree(shapes, ops.bbox);
        Repr := Repr + tree.Repr;
      }
    }

    /** `RayCount()`. */
    function RayCount(): (n: int)
      reads this
      ensures n == rays
    {
      rays
    }

    /** `Intersect(r)`: counts the ray and asks the tree. The answer is the traversal of
        the tree built from the shapes it indexes; when those shapes' hits lie ahead of
        the origin and in their boxes, it is as near as the nearest of their hits. */
    method Intersect(r: R.Ray) returns (h: H.Hit<S>)
      requires Valid() && tree != null
      modifies this
      ensures Valid() && Repr == old(Repr)
      ensures rays == Increment(old(rays))
      ensures shapes == old(shapes) && lights == old(lights) && tree == old(tree)
      ensures h == KdTreeSpec.TreeQuery(KdTreeSpec.RootBox(tree.shapes, ops.bbox),
        KdTreeSpec.Build(tree.shapes, ops.bbox), r, ops.intersect)
      ensures (forall s :: s in tree.shapes ==> KdTreeSpec.HitInBox(s, r, ops.bbox, ops.intersect)) ==>
        h.t == KdTreeSpec.Nearest(tree.shapes, r, ops.intersect).t
    {
      rays := Increment(rays);
      h := tree.Intersect(r, ops.intersect);
    }
  }
}
