/** The column and row count of a plot grid (module `goripy.plot.grid`).
    The log-ratio distance of a candidate `(ncols, nrows)` to the wanted
    aspect ratio is a parameter: it only ranks candidates. */
module PlotGrid {
  import opened Results

  /** `math.ceil(a / b)` for positive integers. */
  function CeilDiv(a: int, b: int): (q: int)
    requires b >= 1
    ensures q * b >= a && (q - 1) * b < a
    ensures a >= 1 ==> q >= 1
  {
    var q := (a + b - 1) / b;
    MulLe(0, q, b);
    q
  }

  lemma MulLe(a: int, b: int, q: int)
    ensures a >= b && q >= 0 ==> a * q >= b * q
  {
    if a >= b && q >= 0 {
      assert a * q - b * q == (a - b) * q;
    }
  }

  /** From `ceil(size / k)` rows, `ceil(size / rows)` columns never exceed `k`. */
  lemma CeilDivBack(size: int, k: int)
    requires size >= 1 && k >= 1
    ensures CeilDiv(size, k) >= 1 && CeilDiv(size, CeilDiv(size, k)) <= k
  {
    var q := CeilDiv(size, k);
    var c := CeilDiv(size, q);
    MulLe(c - 1, k, q);
    assert q * k == k * q;
  }

  /** The state invariant of the enumeration: `ncols * nrows >= size`. */
  predicate Covers(size: int, ncols: int, nrows: int)
  {
    size >= 2 && ncols >= 1 && nrows >= 1 && ncols * nrows >= size
  }

  /** One step: one column fewer, as many rows as that needs, then as few
      columns as those rows need. */
  function Next(size: int, ncols: int, nrows: int): (r: (int, int))
    requires Covers(size, ncols, nrows) && ncols >= nrows
    ensures Covers(size, r.0, r.1) && r.0 < ncols
  {
    assert ncols >= 2;
    CeilDivBack(size, ncols - 1);
    var newRows := CeilDiv(size, ncols - 1);
    (CeilDiv(size, newRows), newRows)
  }

  /** The pairs the `while ncols >= nrows` loop appends from state
      `(ncols, nrows)`: every pair, or with `allow_diff_size` false only
      those of exactly `size` cells. */
  function Enum(size: int, ncols: int, nrows: int, allowDiffSize: bool): seq<(int, int)>
    requires Covers(size, ncols, nrows)
    decreases ncols
  {
    if ncols < nrows then []
    else
      var p := Next(size, ncols, nrows);
      (if allowDiffSize || p.0 * p.1 == size then [p] else []) + Enum(size, p.0, p.1, allowDiffSize)
  }

  /** `[(r, c) for c, r in pairs[::-1]]`. */
  function SwappedReverse(pairs: seq<(int, int)>): (r: seq<(int, int)>)
    ensures |r| == |pairs|
    ensures forall i :: 0 <= i < |pairs| ==> r[i] == (pairs[|pairs| - 1 - i].1, pairs[|pairs| - 1 - i].0)
  {
    seq(|pairs|, i requires 0 <= i < |pairs| => (pairs[|pairs| - 1 - i].1, pairs[|pairs| - 1 - i].0))
  }

  /** The list followed by its mirrored pairs, a final square not repeated. */
  function Mirror(pairs: seq<(int, int)>): seq<(int, int)>
    requires pairs != []
  {
    var last := pairs[|pairs| - 1];
    if last.0 == last.1 then pairs + SwappedReverse(pairs[..|pairs| - 1])
    else pairs + SwappedReverse(pairs)
  }

  /** The candidate list: `size` and `allow_diff_size` give the pairs
      before mirroring; an empty list is the IndexError at
      `ncols_nrows_list[-1]`. */
  function Candidates(size: int, allowDiffSize: bool): (r: Result<seq<(int, int)>>)
  {
    if size < 2 then Err(IndexError)
    else
      var pairs := ([(size, 1)] + Enum(size, size, 1, allowDiffSize));
      var kept := pairs[..|pairs| - 1];
      if kept == [] then Err(IndexError) else Ok(Mirror(kept))
  }

  /** The index the `curr_idx` loop stops at: it advances while the next
      distance is strictly smaller and a next-but-one entry exists. */
  function StopIndex(d: seq<real>, i: nat): (k: nat)
    requires i + 2 <= |d|
    ensures i <= k <= |d| - 2
    ensures forall j :: i <= j < k ==> d[j] > d[j + 1]
    ensures k < |d| - 2 ==> d[k] <= d[k + 1]
    decreases |d| - i
  {
    if d[i] > d[i + 1] && i < |d| - 2 then StopIndex(d, i + 1) else i
  }

  /** `compute_best_2d_grid_dims(size, ..., allow_diff_size)` with `dist`
      the distance of a candidate to the wanted ratio. */
  function BestGridDims(size: int, allowDiffSize: bool, dist: ((int, int)) -> real): Result<(int, int)>
  {
    if size == 1 then Ok((1, 1))
    else match Candidates(size, allowDiffSize)
      case Err(e) => Err(e)
      case Ok(c) =>
        if |c| < 2 then Err(IndexError)
        else
          var d := seq(|c|, i requires 0 <= i < |c| => dist(c[i]));
          Ok(c[StopIndex(d, 0)])
  }

  /** Every enumerated pair covers `size`, exactly when sizes may not differ. */
  lemma {:induction false} EnumCovers(size: int, ncols: int, nrows: int, allowDiffSize: bool)
    requires Covers(size, ncols, nrows)
    ensures forall p :: p in Enum(size, ncols, nrows, allowDiffSize) ==> Good(p, size, allowDiffSize)
    decreases ncols
  {
    if ncols >= nrows {
      var p := Next(size, ncols, nrows);
      EnumCovers(size, p.0, p.1, allowDiffSize);
    }
  }

  /** The mirrored list reads the same backwards with each pair swapped. */
  lemma MirrorSymmetric(pairs: seq<(int, int)>)
    requires pairs != []
    ensures var m := Mirror(pairs);
      forall i :: 0 <= i < |m| ==> m[|m| - 1 - i] == (m[i].1, m[i].0)
  {
  }

  /** A pair of at least `size` cells, of exactly `size` when sizes may
      not differ. */
  predicate Good(p: (int, int), size: int, allowDiffSize: bool)
  {
    p.0 >= 1 && p.1 >= 1 && p.0 * p.1 >= size && (!allowDiffSize ==> p.0 * p.1 == size)
  }

  lemma SwapGood(p: (int, int), size: int, allowDiffSize: bool)
    requires Good(p, size, allowDiffSize)
    ensures Good((p.1, p.0), size, allowDiffSize)
  {
    assert p.1 * p.0 == p.0 * p.1;
  }

  lemma MirrorGood(pairs: seq<(int, int)>, size: int, allowDiffSize: bool)
    requires pairs != [] && forall i :: 0 <= i < |pairs| ==> Good(pairs[i], size, allowDiffSize)
    ensures forall i :: 0 <= i < |Mirror(pairs)| ==> Good(Mirror(pairs)[i], size, allowDiffSize)
  {
    var m := Mirror(pairs);
    var last := pairs[|pairs| - 1];
    var src := if last.0 == last.1 then pairs[..|pairs| - 1] else pairs;
    assert m == pairs + SwappedReverse(src);
    forall i | |pairs| <= i < |m|
      ensures Good(m[i], size, allowDiffSize)
    {
      SwapGood(src[|src| - 1 - (i - |pairs|)], size, allowDiffSize);
    }
  }

  /** Every candidate, and so the result, is a grid of at least `size`
      cells, of exactly `size` cells when sizes may not differ. */
  lemma CandidatesGood(size: int, allowDiffSize: bool)
    requires Candidates(size, allowDiffSize).Ok?
    ensures forall i :: 0 <= i < |Candidates(size, allowDiffSize).value| ==>
      Good(Candidates(size, allowDiffSize).value[i], size, allowDiffSize)
  {
    EnumCovers(size, size, 1, allowDiffSize);
    var pairs := [(size, 1)] + Enum(size, size, 1, allowDiffSize);
    var kept := pairs[..|pairs| - 1];
    forall i | 0 <= i < |kept|
      ensures Good(kept[i], size, allowDiffSize)
    {
      if i > 0 {
        assert kept[i] in Enum(size, size, 1, allowDiffSize);
      }
    }
    MirrorGood(kept, size, allowDiffSize);
  }

  lemma BestGridDimsCovers(size: int, allowDiffSize: bool, dist: ((int, int)) -> real)
    requires BestGridDims(size, allowDiffSize, dist).Ok?
    ensures Good(BestGridDims(size, allowDiffSize, dist).value, size, allowDiffSize)
  {
    if size != 1 {
      CandidatesGood(size, allowDiffSize);
    }
  }

  /** Sizes below 1 fail at the empty candidate list. */
  lemma NonPositiveSizeFails(size: int, allowDiffSize: bool, dist: ((int, int)) -> real)
    requires size < 1
    ensures BestGridDims(size, allowDiffSize, dist) == Err(IndexError)
  {
  }

  /** With `allow_diff_size` false, 5 cells have no exact grid but 5 x 1,
      which the final `[:-1]` drops: the list is empty and indexing it
      fails. */
  lemma FiveHasNoGrid(dist: ((int, int)) -> real)
    ensures BestGridDims(5, false, dist) == Err(IndexError)
  {
    assert Next(5, 5, 1) == (3, 2);
    assert Next(5, 3, 2) == (2, 3);
    assert Enum(5, 2, 3, false) == [];
    assert Enum(5, 3, 2, false) == [];
    assert Enum(5, 5, 1, false) == [];
  }

  /** The candidate list with the final `[:-1]` dropping the last pair only
      when it is the pair that crossed the diagonal (fewer columns than
      rows), which is what the drop is there for. */
  function CandidatesIntended(size: int, allowDiffSize: bool): (r: Result<seq<(int, int)>>)
  {
    if size < 2 then Err(IndexError)
    else
      var pairs := [(size, 1)] + Enum(size, size, 1, allowDiffSize);
      var last := pairs[|pairs| - 1];
      var kept := if last.0 < last.1 then pairs[..|pairs| - 1] else pairs;
      if kept == [] then Err(IndexError) else Ok(Mirror(kept))
  }

  /** `compute_best_2d_grid_dims` over the intended candidate list. */
  function BestGridDimsIntended(size: int, allowDiffSize: bool, dist: ((int, int)) -> real): Result<(int, int)>
  {
    if size == 1 then Ok((1, 1))
    else match CandidatesIntended(size, allowDiffSize)
      case Err(e) => Err(e)
      case Ok(c) =>
        if |c| < 2 then Err(IndexError)
        else
          var d := seq(|c|, i requires 0 <= i < |c| => dist(c[i]));
          Ok(c[StopIndex(d, 0)])
  }

  /** Read as intended, every positive size gets a grid of at least `size`
      cells, of exactly `size` cells when sizes may not differ. */
  lemma IntendedAlwaysGrid(size: int, allowDiffSize: bool, dist: ((int, int)) -> real)
    requires size >= 1
    ensures BestGridDimsIntended(size, allowDiffSize, dist).Ok?
    ensures Good(BestGridDimsIntended(size, allowDiffSize, dist).value, size, allowDiffSize)
  {
    if size >= 2 {
      IntendedCandidatesGood(size, allowDiffSize);
    }
  }

  /** The intended candidate list has at least two entries, all of them
      grids for `size`. */
  lemma IntendedCandidatesGood(size: int, allowDiffSize: bool)
    requires size >= 2
    ensures CandidatesIntended(size, allowDiffSize).Ok?
    ensures var c := CandidatesIntended(size, allowDiffSize).value;
      |c| >= 2 && forall i :: 0 <= i < |c| ==> Good(c[i], size, allowDiffSize)
  {
    EnumCovers(size, size, 1, allowDiffSize);
    var pairs := [(size, 1)] + Enum(size, size, 1, allowDiffSize);
    var last := pairs[|pairs| - 1];
    var kept := if last.0 < last.1 then pairs[..|pairs| - 1] else pairs;
    assert kept[0] == (size, 1);
    forall i | 0 <= i < |kept|
      ensures Good(kept[i], size, allowDiffSize)
    {
      if i > 0 {
        assert kept[i] in Enum(size, size, 1, allowDiffSize);
      }
    }
    MirrorGood(kept, size, allowDiffSize);
    MirrorLength(kept);
  }

  /** A list whose first pair is not square mirrors to at least two pairs. */
  lemma MirrorLength(pairs: seq<(int, int)>)
    requires pairs != [] && pairs[0].0 != pairs[0].1
    ensures |Mirror(pairs)| >= 2
  {
  }

  /** When the loop appends every pair, its last pair is the one that
      crossed the diagonal. */
  lemma {:induction false} EnumEndsCrossed(size: int, ncols: int, nrows: int)
    requires Covers(size, ncols, nrows) && ncols >= nrows
    ensures var e := Enum(size, ncols, nrows, true); e != [] && e[|e| - 1].0 < e[|e| - 1].1
    decreases ncols
  {
    var p := Next(size, ncols, nrows);
    if p.0 >= p.1 {
      EnumEndsCrossed(size, p.0, p.1);
    }
  }

  /** With `allow_diff_size` the code as written and the intended reading
      agree. */
  lemma IntendedAgreesDiffAllowed(size: int, dist: ((int, int)) -> real)
    ensures BestGridDimsIntended(size, true, dist) == BestGridDims(size, true, dist)
  {
    if size >= 2 {
      EnumEndsCrossed(size, size, 1);
      var e := Enum(size, size, 1, true);
      var pairs := [(size, 1)] + e;
      assert pairs[|pairs| - 1] == e[|e| - 1];
    }
  }

  /** The `while ncols >= nrows` loop: the list of appended pairs. */
  method EnumerateCandidates(size: int, allowDiffSize: bool) returns (list: seq<(int, int)>)
    requires size >= 2
    ensures list == [(size, 1)] + Enum(size, size, 1, allowDiffSize)
  {
    var ncols, nrows := size, 1;
    list := [(ncols, nrows)];
    while ncols >= nrows
      invariant Covers(size, ncols, nrows)
      invariant list + Enum(size, ncols, nrows, allowDiffSize) == [(size, 1)] + Enum(size, size, 1, allowDiffSize)
      decreases ncols
    {
      var p := Next(size, ncols, nrows);
      var step := if allowDiffSize || p.0 * p.1 == size then [p] else [];
      assert Enum(size, ncols, nrows, allowDiffSize) == step + Enum(size, p.0, p.1, allowDiffSize);
      assert list + (step + Enum(size, p.0, p.1, allowDiffSize)) == (list + step) + Enum(size, p.0, p.1, allowDiffSize);
      list := list + step;
      ncols, nrows := p.0, p.1;
    }
    assert list + [] == list;
  }

  /** The `curr_idx` loop. */
  method ScanStop(d: seq<real>) returns (k: nat)
    requires |d| >= 2
    ensures k == StopIndex(d, 0)
  {
    k := 0;
    while d[k] > d[k + 1] && k < |d| - 2
      invariant 0 <= k <= |d| - 2
      invariant StopIndex(d, k) == StopIndex(d, 0)
      decreases |d| - k
    {
      k := k + 1;
    }
  }

  /** `compute_best_2d_grid_dims` step by step. */
  method ComputeBest2dGridDims(size: int, allowDiffSize: bool, dist: ((int, int)) -> real) returns (r: Result<(int, int)>)
    ensures r == BestGridDims(size, allowDiffSize, dist)
  {
    if size == 1 {
      return Ok((1, 1));
    }
    if size < 2 {
      return Err(IndexError);
    }
    var list := EnumerateCandidates(size, allowDiffSize);
    list := list[..|list| - 1];
    if list == [] {
      return Err(IndexError);
    }
    var cands := Mirror(list);
    assert Candidates(size, allowDiffSize) == Ok(cands);
    if |cands| < 2 {
      return Err(IndexError);
    }
    var d := seq(|cands|, i requires 0 <= i < |cands| => dist(cands[i]));
    var k := ScanStop(d);
    return Ok(cands[k]);
  }
}
