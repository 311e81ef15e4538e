/** Bounding box of a binary mask (module `goripy.mask.bbox`): the range of
    columns and the range of rows that hold a true cell. */
module MaskBbox {
  import opened Results
  import opened Grids

  /** `(x0, y0, x1, y1)`: columns `[x0, x1)` and rows `[y0, y1)`. */
  datatype Box = Box(x0: nat, y0: nat, x1: nat, y1: nat)

  /** Column `j` of `mask` holds a true cell. */
  predicate ColHasTrue(mask: Grid<bool>, j: nat)
    requires mask.Valid() && j < mask.w
  {
    exists i: nat | i < mask.h :: mask.At(i, j)
  }

  /** Row `i` of `mask` holds a true cell. */
  predicate RowHasTrue(mask: Grid<bool>, i: nat)
    requires mask.Valid() && i < mask.h
  {
    exists j: nat | j < mask.w :: mask.At(i, j)
  }

  predicate AllFalse(mask: Grid<bool>)
    requires mask.Valid()
  {
    forall i: nat, j: nat :: i < mask.h && j < mask.w ==> !mask.At(i, j)
  }

  /** `numpy.any(mask, axis=0)`. */
  function AnyCols(mask: Grid<bool>): (r: seq<bool>)
    requires mask.Valid()
    ensures |r| == mask.w
    ensures forall j :: 0 <= j < mask.w ==> r[j] == ColHasTrue(mask, j)
  {
    seq(mask.w, j requires 0 <= j < mask.w => ColHasTrue(mask, j))
  }

  /** `numpy.any(mask, axis=1)`. */
  function AnyRows(mask: Grid<bool>): (r: seq<bool>)
    requires mask.Valid()
    ensures |r| == mask.h
    ensures forall i :: 0 <= i < mask.h ==> r[i] == RowHasTrue(mask, i)
  {
    seq(mask.h, i requires 0 <= i < mask.h => RowHasTrue(mask, i))
  }

  /** The index of the first true entry. */
  function First(s: seq<bool>): (r: Option<nat>)
    ensures r.Some? ==> r.value < |s| && s[r.value] && forall k :: 0 <= k < r.value ==> !s[k]
    ensures r.None? <==> forall k :: 0 <= k < |s| ==> !s[k]
  {
    if s == [] then None
    else if s[0] then Some(0)
    else match First(s[1..])
      case None => None
      case Some(k) => Some(k + 1)
  }

  /** The index of the last true entry. */
  function Last(s: seq<bool>): (r: Option<nat>)
    ensures r.Some? ==> r.value < |s| && s[r.value] && forall k :: r.value < k < |s| ==> !s[k]
    ensures r.None? <==> forall k :: 0 <= k < |s| ==> !s[k]
  {
    if s == [] then None
    else if s[|s| - 1] then Some(|s| - 1)
    else Last(s[..|s| - 1])
  }

  /** A true cell in column `j` makes some row profile entry true. */
  lemma RowsNotAllFalse(mask: Grid<bool>, j: nat)
    requires mask.Valid() && j < mask.w && ColHasTrue(mask, j)
    ensures First(AnyRows(mask)).Some? && Last(AnyRows(mask)).Some?
  {
    var i0: nat :| i0 < mask.h && mask.At(i0, j);
    assert AnyRows(mask)[i0];
  }

  lemma FirstUnique(s: seq<bool>, k: nat)
    requires k < |s| && s[k] && forall m :: 0 <= m < k ==> !s[m]
    ensures First(s) == Some(k)
  {
  }

  lemma LastUnique(s: seq<bool>, k: nat)
    requires k < |s| && s[k] && forall m :: k < m < |s| ==> !s[m]
    ensures Last(s) == Some(k)
  {
  }

  /** `mask_to_bbox(mask)` as a value. An all-false mask (including one
      with no cells) is the IndexError of the first scan running off the end. */
  function Bbox(mask: Grid<bool>): (r: Result<Box>)
    requires mask.Valid()
  {
    var cols, rows := AnyCols(mask), AnyRows(mask);
    match First(cols)
    case None => Err(IndexError)
    case Some(x0) =>
      RowsNotAllFalse(mask, x0);
      Ok(Box(x0, First(rows).value, Last(cols).value + 1, Last(rows).value + 1))
  }

  /** `Bbox` read off given column and row profiles. */
  lemma BboxOfProfiles(m: Grid<bool>, cols: seq<bool>, rows: seq<bool>)
    requires m.Valid() && cols == AnyCols(m) && rows == AnyRows(m)
    ensures First(cols).None? ==> Bbox(m) == Err(IndexError)
    ensures First(cols).Some? && First(rows).Some? ==>
      Bbox(m) == Ok(Box(First(cols).value, First(rows).value, Last(cols).value + 1, Last(rows).value + 1))
  {
  }

  /** The box exists exactly when some cell is true; it is the tightest
      range of columns and of rows holding a true cell, and holds all of them. */
  lemma BboxSpec(mask: Grid<bool>)
    requires mask.Valid()
    ensures Bbox(mask).Err? <==> AllFalse(mask)
    ensures Bbox(mask).Err? ==> Bbox(mask).error == IndexError
    ensures Bbox(mask).Ok? ==> var b := Bbox(mask).value;
      b.x0 < b.x1 <= mask.w && b.y0 < b.y1 <= mask.h
      && ColHasTrue(mask, b.x0) && ColHasTrue(mask, b.x1 - 1)
      && RowHasTrue(mask, b.y0) && RowHasTrue(mask, b.y1 - 1)
    ensures Bbox(mask).Ok? ==> var b := Bbox(mask).value;
      forall i: nat, j: nat :: i < mask.h && j < mask.w && mask.At(i, j) ==>
        b.y0 <= i < b.y1 && b.x0 <= j < b.x1
  {
    var cols, rows := AnyCols(mask), AnyRows(mask);
    if First(cols).None? {
      forall i: nat, j: nat | i < mask.h && j < mask.w ensures !mask.At(i, j) {
        assert !cols[j];
      }
    } else {
      var x0 := First(cols).value;
      assert ColHasTrue(mask, x0);
      var b := Bbox(mask).value;
      forall i: nat, j: nat | i < mask.h && j < mask.w && mask.At(i, j)
        ensures b.y0 <= i < b.y1 && b.x0 <= j < b.x1
      {
        assert cols[j] && rows[i];
      }
    }
  }

  /** `while not s[k]: k += 1` from 0; the guard `k < |s|` stands for the
      IndexError Python raises when the scan runs off the end. */
  method ScanForward(s: seq<bool>) returns (r: Option<nat>)
    ensures r == First(s)
  {
    var k := 0;
    while k < |s| && !s[k]
      invariant k <= |s|
      invariant forall m :: 0 <= m < k ==> !s[m]
    {
      k := k + 1;
    }
    if k == |s| {
      return None;
    }
    FirstUnique(s, k);
    return Some(k);
  }

  /** `while not s[k - 1]: k -= 1` from `|s|`, given a true entry at `lo`;
      the result is one past the last true entry. */
  method ScanBackward(s: seq<bool>, lo: nat) returns (k: nat)
    requires lo < |s| && s[lo]
    ensures Last(s).Some? && k == Last(s).value + 1
  {
    k := |s|;
    while !s[k - 1]
      invariant lo < k <= |s|
      invariant forall m :: k <= m < |s| ==> !s[m]
      decreases k
    {
      k := k - 1;
    }
    LastUnique(s, k - 1);
  }

  /** `mask_to_bbox(mask)`: four scans over the column and row profiles. */
  method MaskToBbox(mask: Grid<bool>) returns (r: Result<Box>)
    requires mask.Valid()
    ensures r == Bbox(mask)
  {
    var maskX := AnyCols(mask);
    var maskY := AnyRows(mask);
    BboxOfProfiles(mask, maskX, maskY);
    var first := ScanForward(maskX);
    if first.None? {
      return Err(IndexError);
    }
    var x0 := first.value;
    var x1 := ScanBackward(maskX, x0);

    RowsNotAllFalse(mask, x0);
    var y0 := ScanForward(maskY);
    var y1 := ScanBackward(maskY, y0.value);
    return Ok(Box(x0, y0.value, x1, y1));
  }
}
