/** Two-dimensional numpy arrays as values: a shape `(h, w)` and the cells
    in column-major (Fortran) order, so that cell `(i, j)` (row `i`, column
    `j`) is `cells[j * h + i]`. This is the order `ravel(order="F")` and
    `reshape(shape, order="F")` use, so both are the identity on `cells`. */
module Grids {

  datatype Grid<T> = Grid(h: nat, w: nat, cells: seq<T>)
  {
    predicate Valid()
    {
      |cells| == h * w
    }

    /** `a[i, j]`. */
    function At(i: nat, j: nat): T
      requires Valid() && i < h && j < w
    {
      Index(i, j, h, w);
      cells[j * h + i]
    }
  }

  // ---- index arithmetic for column-major order ----

  lemma {:induction false} MulAtLeast(c: nat, h: nat)
    ensures c >= 1 ==> c * h >= h
  {
    if c > 1 {
      MulAtLeast(c - 1, h);
      assert c * h == (c - 1) * h + h;
    }
  }

  lemma MulStep(a: int, b: int, h: int)
    ensures a < b && h >= 0 ==> a * h + h <= b * h
  {
    if a < b && h >= 0 {
      MulAtLeast(b - a, h);
      assert b * h - a * h == (b - a) * h;
    }
  }

  lemma Index(i: nat, j: nat, h: nat, w: nat)
    requires i < h && j < w
    ensures j * h + i < h * w
  {
    MulStep(j, w, h);
  }

  /** A flat column-major index splits into its row `k % h` and column `k / h`. */
  lemma Split(k: nat, h: nat, w: nat)
    requires k < h * w
    ensures h > 0 && k % h < h && k / h < w && (k / h) * h + k % h == k
  {
    MulStep(w - 1, k / h, h);
  }

  lemma Unsplit(i: nat, j: nat, h: nat)
    requires i < h
    ensures (j * h + i) % h == i && (j * h + i) / h == j
  {
    var k := j * h + i;
    MulStep(k / h, j, h);
    MulStep(j, k / h, h);
  }

  /** The grid whose cell `(i, j)` is `f(i, j)`. */
  function Build<T>(h: nat, w: nat, f: (nat, nat) --> T): (g: Grid<T>)
    requires forall i: nat, j: nat :: i < h && j < w ==> f.requires(i, j)
    ensures g.Valid() && g.h == h && g.w == w
    ensures forall i: nat, j: nat :: i < h && j < w ==> g.At(i, j) == f(i, j)
  {
    var g := Grid(h, w, seq(h * w, k requires 0 <= k < h * w => Split(k, h, w); f(k % h, k / h)));
    assert forall i: nat, j: nat :: i < h && j < w ==> g.At(i, j) == f(i, j) by {
      forall i: nat, j: nat | i < h && j < w ensures g.At(i, j) == f(i, j) {
        Index(i, j, h, w);
        Unsplit(i, j, h);
      }
    }
    g
  }

  /** Two grids of the same shape with the same cells are equal. */
  lemma Extensional<T>(a: Grid<T>, b: Grid<T>)
    requires a.Valid() && b.Valid() && a.h == b.h && a.w == b.w
    requires forall i: nat, j: nat :: i < a.h && j < a.w ==> a.At(i, j) == b.At(i, j)
    ensures a == b
  {
    forall k | 0 <= k < |a.cells| ensures a.cells[k] == b.cells[k] {
      Split(k, a.h, a.w);
      assert a.cells[k] == a.At(k % a.h, k / a.h);
    }
  }

  /** `numpy.full((h, w), v)` (and `numpy.zeros` for `v == false`). */
  function Full<T>(h: nat, w: nat, v: T): (g: Grid<T>)
    ensures g.Valid() && g.h == h && g.w == w
    ensures forall i: nat, j: nat :: i < h && j < w ==> g.At(i, j) == v
  {
    Build(h, w, (i: nat, j: nat) => v)
  }

  /** `a.T`. */
  function Transpose<T>(a: Grid<T>): (t: Grid<T>)
    requires a.Valid()
    ensures t.Valid() && t.h == a.w && t.w == a.h
    ensures forall i: nat, j: nat :: i < a.w && j < a.h ==> t.At(i, j) == a.At(j, i)
  {
    Build(a.w, a.h, (i: nat, j: nat) requires i < a.w && j < a.h => a.At(j, i))
  }

  lemma TransposeTwice<T>(a: Grid<T>)
    requires a.Valid()
    ensures Transpose(Transpose(a)) == a
  {
    Extensional(Transpose(Transpose(a)), a);
  }

  /** `a[r0:r1, c0:c1]` for in-range bounds. */
  function Crop<T>(a: Grid<T>, r0: nat, r1: nat, c0: nat, c1: nat): (c: Grid<T>)
    requires a.Valid() && r0 <= r1 <= a.h && c0 <= c1 <= a.w
    ensures c.Valid() && c.h == r1 - r0 && c.w == c1 - c0
    ensures forall i: nat, j: nat :: i < r1 - r0 && j < c1 - c0 ==> c.At(i, j) == a.At(r0 + i, c0 + j)
  {
    Build(r1 - r0, c1 - c0,
      (i: nat, j: nat) requires i < r1 - r0 && j < c1 - c0 => a.At(r0 + i, c0 + j))
  }

  /** Cropping the transpose is transposing the crop. */
  lemma CropTranspose<T>(a: Grid<T>, r0: nat, r1: nat, c0: nat, c1: nat)
    requires a.Valid() && r0 <= r1 <= a.h && c0 <= c1 <= a.w
    ensures Crop(Transpose(a), c0, c1, r0, r1) == Transpose(Crop(a, r0, r1, c0, c1))
  {
    Extensional(Crop(Transpose(a), c0, c1, r0, r1), Transpose(Crop(a, r0, r1, c0, c1)));
  }
}
