/** The second copy of the mask run-length codec (module `goripy.file.mask`).

    `mask_to_rle` and `rle_to_mask` here repeat, statement for statement,
    the pair in `goripy.mask.rle`; the copies below are written out again
    and then proved to compute the same results as `MaskRle`, so that every
    law proved there carries over. The save/load wrappers around them are
    not part of this model. */
module FileMask {
  import opened Results
  import opened Seqs
  import opened PyNum
  import opened Grids
  import MaskRle

  /** `mask_to_rle(mask)`: column-major cells, their run boundaries, the
      adjacent differences of the boundaries, and a leading 0 when the
      first cell is true; an empty mask fails at `mask_flat[0]`. */
  function MaskToRle(mask: Grid<bool>): (r: Result<seq<int>>)
    requires mask.Valid()
    ensures r == MaskRle.MaskToRle(mask)
  {
    var flat := mask.cells;
    if |flat| == 0 then Err(IndexError)
    else
      var runs := MaskRle.Deltas(0, MaskRle.Changes(flat, 1) + [|flat|]);
      Ok(if flat[0] then [0] + runs else runs)
  }

  /** `rle_to_mask(rle, (h, w))`: a zero buffer of `h * w` cells, one
      slice assignment per pair of cumulative sums, read back column-major.
      It returns exactly what the `goripy.mask.rle` copy returns. */
  method RleToMask(rle: seq<int>, h: int, w: int) returns (r: Result<Grid<bool>>)
    ensures r == MaskRle.Decoded(rle, h, w)
  {
    if h < 0 || w < 0 {
      return Err(ValueError);
    }
    var n := h * w;
    var buf := new bool[n](_ => false);
    assert buf[..] == MaskRle.Painted(rle, n, 0);
    var cum := MaskRle.CumSum(rle);
    var k := 0;
    while 2 * k + 1 < |rle|
      invariant 2 * k <= |rle|
      invariant buf[..] == MaskRle.Painted(rle, n, k)
    {
      var bounds := Slice(Some(cum[2 * k]), Some(cum[2 * k + 1]), n);
      assert MaskRle.Painted(rle, n, k + 1) == MaskRle.SetRange(buf[..], bounds.0, bounds.1, true) by {
        assert bounds == MaskRle.PairSlice(rle, n, k);
      }
      MaskRle.SetTrue(buf, bounds.0, bounds.1);
      k := k + 1;
    }
    assert k == |rle| / 2;
    return Ok(Grid(h, w, buf[..]));
  }

  /** The runs of this copy: they sum to the number of cells, a leading 0
      appears exactly when the first column-major cell is true, every
      other run is positive, and the alternating runs spell out the cells. */
  lemma EncoderRuns(mask: Grid<bool>)
    requires mask.Valid() && mask.h * mask.w >= 1
    ensures MaskToRle(mask).Ok?
    ensures var r := MaskToRle(mask).value;
      && Sum(r) == mask.h * mask.w
      && (r[0] == 0 <==> mask.cells[0])
      && (forall k :: (if mask.cells[0] then 1 else 0) <= k < |r| ==> r[k] >= 1)
      && MaskRle.Expand(r, false) == mask.cells
  {
    MaskRle.EncodeFlatRuns(mask.cells);
  }

  /** Decoding this copy's runs with the mask's own shape gives the mask back. */
  lemma RoundTrip(mask: Grid<bool>)
    requires mask.Valid() && mask.h * mask.w >= 1
    ensures MaskToRle(mask).Ok?
    ensures MaskRle.Decoded(MaskToRle(mask).value, mask.h, mask.w) == Ok(mask)
  {
    MaskRle.RoundTrip(mask);
  }
}
