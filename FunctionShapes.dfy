/** Height-field shapes `z < f(x, y)` found by ray marching (Function.cs). */
module FunctionShapes {
  import N = Numeric
  import opened Vectors
  import R = Rays
  import B = Boxes
  import M = Materials
  import H = Hits

  /** The wrapped `Func`: its height function and the bounding box it reports. Both are
      the collaborator's own; they are parameters of the model. */
  datatype Func = Func(f: (real, real) -> real, box: B.Box)

  datatype FunctionShape = FunctionShape(funct: Func, box: B.Box, material: M.Material)

  function NewFunction(funct: Func, box: B.Box, material: M.Material): (s: FunctionShape)
    ensures s.funct == funct && s.box == box && s.material == material
  {
    FunctionShape(funct, box, material)
  }

  /** `GetBoundingBox()`: the stored box. */
  function GetBoundingBox(s: FunctionShape): (b: B.Box)
    ensures b == s.box
  {
    s.box
  }

  /** `BoundingBox()`: the wrapped function's box, not the stored one. */
  function BoundingBox(s: FunctionShape): (b: B.Box)
    ensures b == s.funct.box
  {
    s.funct.box
  }

  /** `func(x, y)` delegates to the wrapped function. */
  function Height(s: FunctionShape, x: real, y: real): (z: real)
    ensures z == s.funct.f(x, y)
  {
    s.funct.f(x, y)
  }

  /** `Contains(v)`: `v` is strictly below the height field. */
  predicate Contains(s: FunctionShape, v: Vector) {
    v.z < Height(s, v.x, v.y)
  }

  /** The marching step `1/32`. Its multiples below 12 are exact in binary, so the source's
      accumulated `t += step` takes exactly the values `k/32`. */
  const Step: real := 1.0 / 32.0

  /** The number of samples: `k/32 < 12` exactly for `k < 384`. */
  const Steps: nat := 384

  function Sample(k: int): real {
    k as real * Step
  }

  /** Sample `k` lies in the box on the other side of the surface from sample 1. */
  predicate Crossing(s: FunctionShape, r: R.Ray, k: int) {
    var v := R.Position(r, Sample(k));
    Contains(s, v) != Contains(s, R.Position(r, Sample(1))) && B.Contains(s.box, v)
  }

  /** `Intersect(r)`: march from `t = 1/32` in steps of `1/32` while `t < 12`; at the first
      sample that is in the box and on the other side of the surface from the first one,
      return the previous sample's distance. */
  method Intersect(s: FunctionShape, r: R.Ray) returns (h: H.Hit<FunctionShape>)
    ensures h == H.NoHit() <==> forall k :: 1 <= k < Steps ==> !Crossing(s, r, k)
    ensures h != H.NoHit() ==> h.shape == N.Some(s) && h.info.None?
    ensures h != H.NoHit() ==>
      exists k :: 1 < k < Steps && Crossing(s, r, k) && h.t == Sample(k - 1) &&
        forall j :: 1 <= j < k ==> !Crossing(s, r, j)
    ensures h != H.NoHit() ==> Step <= h.t < 12.0
  {
    var step := Step;
    var sign := Contains(s, R.Position(r, step));
    var t := step;
    ghost var k := 1;
    while t < 12.0
      invariant 1 <= k <= Steps && t == Sample(k)
      invariant forall j :: 1 <= j < k ==> !Crossing(s, r, j)
      decreases Steps - k
    {
      var v := R.Position(r, t);
      if Contains(s, v) != sign && B.Contains(s.box, v) {
        assert Crossing(s, r, k);
        assert k != 1;
        h := H.Hit(N.Some(s), t - step, N.None);
        assert h.t == Sample(k - 1);
        return;
      }
      t := t + step;
      k := k + 1;
    }
    h := H.NoHit();
  }

  /** `UV(p)` as the source writes it, `p.x - x1 / x2 - x1`: division binds tighter than
      subtraction. A zero upper corner divides by zero and is excluded. */
  function UVAsWritten(s: FunctionShape, p: Vector): (uv: Vector)
    requires s.box.max.x != 0.0 && s.box.max.y != 0.0
    ensures uv.z == 0.0
  {
    var (x1, x2, y1, y2) := (s.box.min.x, s.box.max.x, s.box.min.y, s.box.max.y);
    V3(p.x - x1 / x2 - x1, p.y - y1 / y2 - y1, 0.0)
  }

  /** On the box `[0, 2]^3`, the upper corner gets texture coordinates (2, 2), outside the
      unit square, where the evident `(p.x - x1) / (x2 - x1)` gives (1, 1). */
  lemma UVAsWrittenLeavesSquare(f: Func, m: M.Material)
    ensures var s := FunctionShape(f, B.NewBox(V3(0.0, 0.0, 0.0), V3(2.0, 2.0, 2.0)), m);
      UVAsWritten(s, V3(2.0, 2.0, 2.0)) == V3(2.0, 2.0, 0.0) &&
      UV(s, V3(2.0, 2.0, 2.0)) == V3(1.0, 1.0, 0.0)
  {
    var s := FunctionShape(f, B.NewBox(V3(0.0, 0.0, 0.0), V3(2.0, 2.0, 2.0)), m);
    assert UV(s, V3(2.0, 2.0, 2.0)) == V3(2.0 / 2.0, 2.0 / 2.0, 0.0);
  }

  /** `UV(p)` as intended: `p`'s position across the box in `x` and `y`. A box that is flat
      in `x` or `y` divides by zero and is excluded. */
  function UV(s: FunctionShape, p: Vector): (uv: Vector)
    requires s.box.max.x != s.box.min.x && s.box.max.y != s.box.min.y
    ensures uv.z == 0.0
  {
    var (x1, x2, y1, y2) := (s.box.min.x, s.box.max.x, s.box.min.y, s.box.max.y);
    V3((p.x - x1) / (x2 - x1), (p.y - y1) / (y2 - y1), 0.0)
  }

  /** The intended texture coordinates of the box's points lie in the unit square, from
      (0, 0) at the lower corner to (1, 1) at the upper one. */
  lemma UVRange(s: FunctionShape, p: Vector)
    requires s.box.min.x < s.box.max.x && s.box.min.y < s.box.max.y
    ensures B.Contains(s.box, p) ==> 0.0 <= UV(s, p).x <= 1.0 && 0.0 <= UV(s, p).y <= 1.0
    ensures UV(s, s.box.min) == V3(0.0, 0.0, 0.0) && UV(s, s.box.max) == V3(1.0, 1.0, 0.0)
  {
    var (x1, x2, y1, y2) := (s.box.min.x, s.box.max.x, s.box.min.y, s.box.max.y);
    if B.Contains(s.box, p) {
      B.LeDiv(0.0, p.x - x1, x2 - x1);
      B.DivLe(p.x - x1, 1.0, x2 - x1);
      B.LeDiv(0.0, p.y - y1, y2 - y1);
      B.DivLe(p.y - y1, 1.0, y2 - y1);
    }
    N.SelfDivision(x2 - x1);
    N.SelfDivision(y2 - y1);
  }

  function MaterialAt(s: FunctionShape, p: Vector): (m: M.Material)
    ensures m == s.material
  {
    s.material
  }

  /** `NormalAt(p)`: the normalised central-difference normal with `eps = 1e-3`; its `z`
      is `2 eps > 0`, so it never normalises the zero vector and always points up. */
  function NormalAt(s: FunctionShape, p: Vector, sqrt: real -> real): (n: Vector)
    requires N.IsSqrt(sqrt)
    ensures LengthSquared(n) == 1.0 && n.z > 0.0
  {
    var eps := 0.001;
    var x := Height(s, p.x - eps, p.y) - Height(s, p.x + eps, p.y);
    var y := Height(s, p.x, p.y - eps) - Height(s, p.x, p.y + eps);
    var v := V3(x, y, 2.0 * eps);
    LengthSquaredPositive(v);
    var n := Normalize(v, sqrt);
    var k :| k > 0.0 && n == MulScalar(v, k);
    N.MulPos(k, 2.0 * eps);
    n
  }
}
