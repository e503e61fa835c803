/** The background grid of Poisson.cs: points in the plane stored by the grid cell that
    holds them, and an insertion that refuses a point lying strictly closer than `r` to a
    point stored in one of the 5 x 5 cells around its own. */
module PoissonGrids {
  import N = Numeric
  import opened Vectors

  /** The cell `offset (a, b)` away from cell `n`: the key `new Vector(n.x + a, n.y + b, 0)`
      that `insert` looks up. */
  function Neighbour(n: Vector, a: int, b: int): Vector {
    V3(n.x + a as real, n.y + b as real, 0.0)
  }

  /** `m` is strictly closer than `r` to `v` in the plane, measured as `insert` measures
      it: the square root of the sum of the squared differences. */
  predicate Close(m: Vector, v: Vector, r: real, sqrt: real -> real) {
    sqrt(PlaneDistanceSquared(m, v)) < r
  }

  /** `Math.Pow(m.x - v.x, 2) + Math.Pow(m.y - v.y, 2)`. */
  function PlaneDistanceSquared(m: Vector, v: Vector): real {
    (m.x - v.x) * (m.x - v.x) + (m.y - v.y) * (m.y - v.y)
  }

  /** The point stored at offset `(a, b)` from cell `n`, if any, is too close to `v`. */
  predicate BlockedAt(cells: map<Vector, Vector>, n: Vector, v: Vector, r: real, sqrt: real -> real,
                      a: int, b: int) {
    Neighbour(n, a, b) in cells && Close(cells[Neighbour(n, a, b)], v, r, sqrt)
  }

  /** Some point stored in the 5 x 5 cells around `n` is too close to `v`. */
  predicate Blocked(cells: map<Vector, Vector>, n: Vector, v: Vector, r: real, sqrt: real -> real) {
    exists a, b :: -2 <= a <= 2 && -2 <= b <= 2 && BlockedAt(cells, n, v, r, sqrt, a, b)
  }

  /** For a non-negative radius the square-root test is the squared-distance test
      `dx^2 + dy^2 < r^2`, in both directions. */
  lemma CloseIff(m: Vector, v: Vector, r: real, sqrt: real -> real)
    requires N.IsSqrt(sqrt) && r >= 0.0
    ensures Close(m, v, r, sqrt) <==> PlaneDistanceSquared(m, v) < r * r
  {
    N.SquareNonNegative(m.x - v.x);
    N.SquareNonNegative(m.y - v.y);
    var q := PlaneDistanceSquared(m, v);
    RootLess(q, sqrt(q), r);
  }

  /** A non-negative root `s` of `q` is below `r >= 0` exactly when `q < r^2`. */
  lemma RootLess(q: real, s: real, r: real)
    requires s >= 0.0 && s * s == q && r >= 0.0
    ensures s < r <==> q < r * r
  {
    if s < r {
      N.SquareStrict(s, r);
    } else if r < s {
      N.SquareStrict(r, s);
    }
  }

  /** A stored point at distance exactly `r` does not block: the test is strict. */
  lemma BoundaryDoesNotBlock(m: Vector, v: Vector, r: real, sqrt: real -> real)
    requires N.IsSqrt(sqrt) && r >= 0.0
    requires PlaneDistanceSquared(m, v) == r * r
    ensures !Close(m, v, r, sqrt)
  {
    CloseIff(m, v, r, sqrt);
  }

  /** Nothing blocks when the radius is not positive: a square root is never negative. */
  lemma NothingCloseBelowZero(m: Vector, v: Vector, r: real, sqrt: real -> real)
    requires N.IsSqrt(sqrt) && r <= 0.0
    ensures !Close(m, v, r, sqrt)
  {
    N.SquareNonNegative(m.x - v.x);
    N.SquareNonNegative(m.y - v.y);
  }

  /** With `g = r / s` and `s^2 = 2`, `g^2 2 = r^2`: a cell's diagonal is `r`. */
  lemma Diagonal(r: real, s: real, g: real)
    requires s > 0.0 && s * s == 2.0 && g == r / s
    ensures g * g * 2.0 == r * r
  {
    assert g * s == r;
    assert g * g * 2.0 == (g * s) * (g * s);
  }

  /** Two reals with the same floor are less than 1 apart. */
  lemma SameFloor(a: real, b: real)
    requires a.Floor == b.Floor
    ensures -1.0 < a - b < 1.0
  {
  }

  /** Points whose coordinates divided by `size > 0` are less than 1 apart are less than
      `size` apart, squared: `(x - y)^2 < size^2`. */
  lemma Gap(x: real, y: real, size: real)
    requires size > 0.0 && -1.0 < x / size - y / size < 1.0
    ensures (x - y) * (x - y) < size * size
  {
    var d := x / size - y / size;
    assert x == (x / size) * size && y == (y / size) * size;
    assert x - y == d * size;
    var e := if d >= 0.0 then d else -d;
    N.SquareStrict(e, 1.0);
    assert e * e == d * d;
    N.MulPos(size, size);
    N.MulPos(1.0 - d * d, size * size);
    assert (x - y) * (x - y) == (d * d) * (size * size);
  }

  /** Points whose coordinates divided by `size > 0` have the same floors are less than a
      cell's diagonal apart, squared: `dx^2 + dy^2 < 2 size^2`. */
  lemma CellGap(mx: real, vx: real, my: real, vy: real, size: real)
    requires size > 0.0 && (mx / size).Floor == (vx / size).Floor && (my / size).Floor == (vy / size).Floor
    ensures (mx - vx) * (mx - vx) + (my - vy) * (my - vy) < size * size * 2.0
  {
    SameFloor(mx / size, vx / size);
    SameFloor(my / size, vy / size);
    Gap(mx, vx, size);
    Gap(my, vy, size);
  }

  class Poisson {
    var r: real
    var size: real
    var cells: map<Vector, Vector>

    /** The grid the source builds with `newPoissonGrid`: a positive radius, cells whose
        diagonal is the radius, and every point stored under the cell that holds it. */
    ghost predicate Valid()
      reads this
    {
      r > 0.0 && size > 0.0 && size * size * 2.0 == r * r &&
      forall k :: k in cells ==> Normalize(cells[k]) == k
    }

    /** `Poisson(r, size, hmap)`. */
    constructor (r: real, size: real, hmap: map<Vector, Vector>)
      ensures this.r == r && this.size == size && cells == hmap
    {
      this.r := r;
      this.size := size;
      cells := hmap;
    }

    /** `newPoissonGrid(r)`: an empty grid whose cell size is `r / sqrt 2`, so that a cell's
        diagonal is `r`; for a positive radius the grid is `Valid`. It does not use the
        object it is called on. */
    static method NewPoissonGrid(r: real, sqrt: real -> real) returns (p: Poisson)
      requires N.IsSqrt(sqrt)
      ensures fresh(p) && p.r == r && p.cells == map[]
      ensures p.size * p.size * 2.0 == r * r && (p.size > 0.0 <==> r > 0.0)
      ensures r > 0.0 ==> p.Valid()
    {
      var s := sqrt(2.0);
      assert s >= 0.0 && s * s == 2.0;
      assert s > 0.0;
      var gridsize := r / s;
      Diagonal(r, s, gridsize);
      assert gridsize * s == r;
      if r > 0.0 {
        assert gridsize > 0.0 by {
          if gridsize <= 0.0 {
            N.MulPos(-gridsize + 1.0, s);
          }
        }
      } else {
        assert gridsize <= 0.0 by {
          if gridsize > 0.0 {
            N.MulPos(gridsize, s);
          }
        }
      }
      p := new Poisson(r, gridsize, map[]);
    }

    /** `normalize(v)`: the cell of `v`, whose `x` and `y` are the floors of `v.x / size` and
        `v.y / size`. A zero size divides by zero and is excluded. */
    function Normalize(v: Vector): (n: Vector)
      reads this
      requires size != 0.0
      ensures n.z == 0.0 && n.w == 1.0
      ensures n.x == n.x.Floor as real && n.x <= v.x / size < n.x + 1.0
      ensures n.y == n.y.Floor as real && n.y <= v.y / size < n.y + 1.0
    {
      V3((v.x / size).Floor as real, (v.y / size).Floor as real, 0.0)
    }

    /** Two points of one cell are strictly closer than the diagonal `r`. */
    lemma SameCellClose(m: Vector, v: Vector, sqrt: real -> real)
      requires N.IsSqrt(sqrt) && size > 0.0 && size * size * 2.0 == r * r && r >= 0.0
      requires Normalize(m) == Normalize(v)
      ensures Close(m, v, r, sqrt)
    {
      CellGap(m.x, v.x, m.y, v.y, size);
      CloseIff(m, v, r, sqrt);
    }

    /** `insert(v)`: scans the 5 x 5 cells around `v`'s cell; if one holds a point strictly
        closer than `r`, refuses `v` and changes nothing; otherwise stores `v` under its
        cell. On a `Valid` grid an accepted point's cell was empty, so nothing is
        overwritten, and the grid stays `Valid`. */
    method Insert(v: Vector, sqrt: real -> real) returns (ok: bool)
      requires size != 0.0
      modifies this
      ensures r == old(r) && size == old(size)
      ensures ok <==> !Blocked(old(cells), Normalize(v), v, r, sqrt)
      ensures ok ==> cells == old(cells)[Normalize(v) := v]
      ensures !ok ==> cells == old(cells)
      ensures old(Valid()) && N.IsSqrt(sqrt) && ok ==> Normalize(v) !in old(cells) && Valid()
    {
      var n := Normalize(v);
      var i := n.x - 2.0;
      ghost var a := -2;
      while i < n.x + 3.0
        invariant -2 <= a <= 3 && i == n.x + a as real
        invariant forall a', b' :: -2 <= a' < a && -2 <= b' <= 2 ==> !BlockedAt(cells, n, v, r, sqrt, a', b')
        decreases 3 - a
      {
        var j := n.y - 2.0;
        ghost var b := -2;
        while j < n.y + 3.0
          invariant -2 <= b <= 3 && j == n.y + b as real
          invariant forall a', b' :: -2 <= a' < a && -2 <= b' <= 2 ==> !BlockedAt(cells, n, v, r, sqrt, a', b')
          invariant forall b' :: -2 <= b' < b ==> !BlockedAt(cells, n, v, r, sqrt, a, b')
          decreases 3 - b
        {
          assert V3(i, j, 0.0) == Neighbour(n, a, b);
          if V3(i, j, 0.0) in cells {
            var m := cells[V3(i, j, 0.0)];
            if sqrt(PlaneDistanceSquared(m, v)) < r {
              assert BlockedAt(cells, n, v, r, sqrt, a, b);
              return false;
            }
          }
          j := j + 1.0;
          b := b + 1;
        }
        i := i + 1.0;
        a := a + 1;
      }
      assert !Blocked(cells, n, v, r, sqrt);
      if Valid() && N.IsSqrt(sqrt) {
        if n in cells {
          assert n == Neighbour(n, 0, 0);
          SameCellClose(cells[n], v, sqrt);
          assert BlockedAt(cells, n, v, r, sqrt, 0, 0);
          assert false;
        }
      }
      cells := cells[n := v];
      return true;
    }
  }
}
