/** Square crops around a reference mask (module `goripy.img.mask_crop`).
    A cropper is fitted once to a mask and then cuts the same window out of
    other images of the mask's size, padding with a background value where
    the square runs past the image. */
module ImgMaskCrop {
  import opened Results
  import opened PyNum
  import opened Grids
  import opened MaskBbox
  import opened Args
  import opened ImgBorderFill

  /** The fitted window: the square side, the copied rows and columns of
      the original image, and where they land in the square. */
  datatype Windows = Windows(
    newSize: int,
    origY0: int, origY1: int, origX0: int, origX1: int,
    newY0: int, newY1: int, newX0: int, newX1: int)

  function Max2(a: int, b: int): int { if a >= b then a else b }
  function Min2(a: int, b: int): int { if a <= b then a else b }

  /** A copy window along one axis: `(orig0, orig1, new0, new1)`. */
  datatype Span = Span(orig0: int, orig1: int, new0: int, new1: int)

  /** One axis of `fit`: a run of `newSize` cells centred (rounded half to
      even) on the box range `[lo, hi)`, intersected with `[0, dim)`, in
      original and in square coordinates. */
  function AxisSpan(lo: int, hi: int, dim: nat, newSize: int): Span
  {
    var centre := (lo + hi) as real / 2.0;
    var crop0 := RoundHalfEven(centre - newSize as real / 2.0);
    var crop1 := crop0 + newSize;
    Span(Max2(crop0, 0), Min2(crop1, dim), Max2(0 - crop0, 0), newSize - Max2(crop1 - dim, 0))
  }

  /** The square side: `max(round(max(mask_h, mask_w) / (1 - border_ratio)), min_size)`. */
  function NewSize(b: Box, borderRatio: real, minSize: int): int
    requires borderRatio < 1.0
  {
    Max2(Scaled(Max2(b.y1 - b.y0, b.x1 - b.x0), borderRatio), minSize)
  }

  /** `round(m * exp_ratio)` with `exp_ratio = 1 / (1 - border_ratio)`. */
  function Scaled(m: int, borderRatio: real): int
    requires borderRatio < 1.0
  {
    var expRatio := 1.0 / (1.0 - borderRatio);
    RoundHalfEven(m as real * expRatio)
  }

  /** What `fit` computes from an `h x w` mask with bounding box `b`. */
  function FitWindows(h: nat, w: nat, b: Box, borderRatio: real, minSize: int): Windows
    requires borderRatio < 1.0
  {
    var n := NewSize(b, borderRatio, minSize);
    var ys, xs := AxisSpan(b.y0, b.y1, h, n), AxisSpan(b.x0, b.x1, w, n);
    Windows(n, ys.orig0, ys.orig1, xs.orig0, xs.orig1, ys.new0, ys.new1, xs.new0, xs.new1)
  }

  /** Both copy windows are ordered and inside their arrays, and they have
      the same extent in each direction. */
  predicate WindowsValid(wd: Windows)
  {
    1 <= wd.newSize &&
    0 <= wd.origY0 <= wd.origY1 && 0 <= wd.origX0 <= wd.origX1 &&
    0 <= wd.newY0 <= wd.newY1 <= wd.newSize && 0 <= wd.newX0 <= wd.newX1 <= wd.newSize &&
    wd.newY1 - wd.newY0 == wd.origY1 - wd.origY0 && wd.newX1 - wd.newX0 == wd.origX1 - wd.origX0
  }

  lemma InverseAtLeastOne(d: real)
    requires 0.0 < d <= 1.0
    ensures 1.0 / d >= 1.0
  {
    assert d * (1.0 / d) == 1.0;
  }

  lemma ScaleUp(m: nat, e: real)
    requires e >= 1.0
    ensures RoundHalfEven(m as real * e) >= m
  {
    assert m as real * e - m as real == m as real * (e - 1.0);
    RoundAbove(m as real * e, m);
  }

  /** With a border ratio in `[0, 1)` the side covers the larger box extent
      and `min_size`. */
  lemma NewSizeBounds(b: Box, borderRatio: real, minSize: int)
    requires b.y0 <= b.y1 && b.x0 <= b.x1 && 0.0 <= borderRatio < 1.0
    ensures NewSize(b, borderRatio, minSize) >= minSize
    ensures NewSize(b, borderRatio, minSize) >= b.y1 - b.y0 && NewSize(b, borderRatio, minSize) >= b.x1 - b.x0
  {
    ScaledAtLeast(Max2(b.y1 - b.y0, b.x1 - b.x0), borderRatio);
  }

  lemma ScaledAtLeast(m: nat, borderRatio: real)
    requires 0.0 <= borderRatio < 1.0
    ensures Scaled(m, borderRatio) >= m
  {
    InverseAtLeastOne(1.0 - borderRatio);
    ScaleUp(m, 1.0 / (1.0 - borderRatio));
  }

  /** A run of at least the box's extent, centred on the box, covers the
      box; cut to the axis, both windows are ordered, in range and of equal
      extent. */
  lemma AxisSpanSpec(lo: int, hi: int, dim: nat, newSize: int)
    requires 0 <= lo < hi <= dim && newSize >= hi - lo
    ensures var s := AxisSpan(lo, hi, dim, newSize);
      0 <= s.orig0 <= lo && hi <= s.orig1 <= dim &&
      0 <= s.new0 <= s.new1 <= newSize && s.new1 - s.new0 == s.orig1 - s.orig0
  {
    var x := (lo + hi) as real / 2.0 - newSize as real / 2.0;
    assert x <= lo as real;
    RoundBelow(x, lo);
    var c0 := RoundHalfEven(x);
    assert (c0 + newSize) as real >= hi as real - 0.5;
  }

  /** `fit` on the box of a mask, with a border ratio in `[0, 1)`: the
      square is at least `min_size` and at least the box's larger extent,
      its intersection with the image contains the whole box, and the two
      copy windows are valid. */
  lemma FitWindowsSpec(h: nat, w: nat, b: Box, borderRatio: real, minSize: int)
    requires b.x0 < b.x1 <= w && b.y0 < b.y1 <= h && 0.0 <= borderRatio < 1.0
    ensures var wd := FitWindows(h, w, b, borderRatio, minSize);
      wd.newSize >= minSize && wd.newSize >= b.y1 - b.y0 && wd.newSize >= b.x1 - b.x0 &&
      WindowsValid(wd) &&
      wd.origY0 <= b.y0 && b.y1 <= wd.origY1 <= h && wd.origX0 <= b.x0 && b.x1 <= wd.origX1 <= w
  {
    var n := NewSize(b, borderRatio, minSize);
    NewSizeBounds(b, borderRatio, minSize);
    AxisSpanSpec(b.y0, b.y1, h, n);
    AxisSpanSpec(b.x0, b.x1, w, n);
  }

  /** The facts `fit` needs about `mask_to_bbox`. */
  lemma BoxOfMask(mask: Grid<bool>)
    requires mask.Valid()
    ensures Bbox(mask).Err? <==> AllFalse(mask)
    ensures Bbox(mask).Err? ==> Bbox(mask).error == IndexError
    ensures Bbox(mask).Ok? ==> var b := Bbox(mask).value; b.x0 < b.x1 <= mask.w && b.y0 < b.y1 <= mask.h
  {
    BboxSpec(mask);
  }

  /** `arr[oy0:..., ox0:...]` copied into `out[ny0:ny1, nx0:nx1]`. */
  method CopyWindow(out: array2<seq<int>>, src: array2<seq<int>>, ny0: nat, ny1: nat, nx0: nat, nx1: nat, oy0: nat, ox0: nat)
    requires out != src
    requires ny0 <= ny1 <= out.Length0 && nx0 <= nx1 <= out.Length1
    requires oy0 + (ny1 - ny0) <= src.Length0 && ox0 + (nx1 - nx0) <= src.Length1
    modifies out
    ensures forall i, j :: 0 <= i < out.Length0 && 0 <= j < out.Length1 ==>
      out[i, j] == if ny0 <= i < ny1 && nx0 <= j < nx1 then src[i - ny0 + oy0, j - nx0 + ox0] else old(out[i, j])
  {
    for i := ny0 to ny1
      invariant forall i', j :: 0 <= i' < out.Length0 && 0 <= j < out.Length1 ==>
        out[i', j] == if ny0 <= i' < i && nx0 <= j < nx1 then src[i' - ny0 + oy0, j - nx0 + ox0] else old(out[i', j])
    {
      for j := nx0 to nx1
        invariant forall i', j' :: 0 <= i' < out.Length0 && 0 <= j' < out.Length1 ==>
          out[i', j'] ==
            if (ny0 <= i' < i && nx0 <= j' < nx1) || (i' == i && nx0 <= j' < j) then src[i' - ny0 + oy0, j' - nx0 + ox0]
            else old(out[i', j'])
      {
        out[i, j] := src[i - ny0 + oy0, j - nx0 + ox0];
      }
    }
  }

  /** The cropped image: the source window inside the copy window and the
      background everywhere else. */
  method BuildCrop(arr: array2<seq<int>>, wd: Windows, bkg: seq<int>) returns (out: array2<seq<int>>)
    requires WindowsValid(wd) && wd.origY1 <= arr.Length0 && wd.origX1 <= arr.Length1
    ensures fresh(out) && out.Length0 == wd.newSize && out.Length1 == wd.newSize
    ensures forall i, j :: 0 <= i < wd.newSize && 0 <= j < wd.newSize ==>
      out[i, j] == if wd.newY0 <= i < wd.newY1 && wd.newX0 <= j < wd.newX1
        then arr[i - wd.newY0 + wd.origY0, j - wd.newX0 + wd.origX0] else bkg
  {
    out := new seq<int>[wd.newSize, wd.newSize];
    CopyWindow(out, arr, wd.newY0, wd.newY1, wd.newX0, wd.newX1, wd.origY0, wd.origX0);
    var b := Bounds(wd.newY0, wd.newY1, wd.newX0, wd.newX1);
    FillRegions(out, b, true, bkg);
    forall i, j | 0 <= i < wd.newSize && 0 <= j < wd.newSize
      ensures InBorder(wd.newSize, wd.newSize, b, i, j) <==> !(wd.newY0 <= i < wd.newY1 && wd.newX0 <= j < wd.newX1)
    {
      BorderIsComplement(wd.newSize, wd.newSize, b, i, j);
    }
  }

  /** A `SquareMaskCropper`: whether it has been fitted, and the window of
      its last successful `fit`. */
  class SquareMaskCropper {
    var isFit: bool
    var newSize: int
    var origCopyY0: int
    var origCopyY1: int
    var origCopyX0: int
    var origCopyX1: int
    var newCopyY0: int
    var newCopyY1: int
    var newCopyX0: int
    var newCopyX1: int

    function Current(): Windows
      reads this
    {
      Windows(newSize, origCopyY0, origCopyY1, origCopyX0, origCopyX1, newCopyY0, newCopyY1, newCopyX0, newCopyX1)
    }

    ghost predicate Valid()
      reads this
    {
      isFit ==> WindowsValid(Current())
    }

    constructor ()
      ensures Valid() && !isFit
    {
      isFit := false;
    }

    /** `fit(mask, border_ratio, min_size)`. An all-false mask fails in
        `mask_to_bbox` before any field is set. */
    method Fit(mask: Grid<bool>, borderRatio: real, minSize: int) returns (r: Result<()>)
      requires mask.Valid() && 0.0 <= borderRatio < 1.0
      modifies this
      ensures r.Err? <==> AllFalse(mask)
      ensures r.Err? ==> r.error == IndexError && unchanged(this)
      ensures r.Ok? ==> isFit && Valid() && Bbox(mask).Ok?
      ensures r.Ok? ==> Current() == FitWindows(mask.h, mask.w, Bbox(mask).value, borderRatio, minSize)
    {
      BoxOfMask(mask);
      var box := Bbox(mask);
      if box.Err? {
        return Err(IndexError);
      }
      var b := box.value;
      var wd := FitWindows(mask.h, mask.w, b, borderRatio, minSize);
      assert WindowsValid(wd) by {
        FitWindowsSpec(mask.h, mask.w, b, borderRatio, minSize);
      }
      Store(wd);
      return Ok(());
    }

    /** The field assignments that end a successful `fit`. */
    method Store(wd: Windows)
      requires WindowsValid(wd)
      modifies this
      ensures isFit && Valid() && Current() == wd
    {
      newSize := wd.newSize;
      origCopyY0, origCopyY1, origCopyX0, origCopyX1 := wd.origY0, wd.origY1, wd.origX0, wd.origX1;
      newCopyY0, newCopyY1, newCopyX0, newCopyX1 := wd.newY0, wd.newY1, wd.newX0, wd.newX1;
      isFit := true;
    }

    /** `crop(arr, bkg_value)` on an image with `channels` channels that
        holds the fitted window: a ValueError before `fit`, the error of
        expanding the background to one value per channel, or a fresh
        `new_size x new_size` image. */
    method Crop(arr: array2<seq<int>>, channels: nat, bkgValue: Arg) returns (r: Result<array2<seq<int>>>)
      requires Valid()
      requires isFit ==> origCopyY1 <= arr.Length0 && origCopyX1 <= arr.Length1
      ensures !isFit ==> r == Err(ValueError)
      ensures isFit ==> (r.Err? <==> ArgListToArgArrIntended(bkgValue, channels).Err?)
      ensures isFit && r.Err? ==> r.error == ArgListToArgArrIntended(bkgValue, channels).error
      ensures r.Ok? ==> fresh(r.value) && r.value.Length0 == newSize && r.value.Length1 == newSize
      ensures r.Ok? ==> forall i, j :: 0 <= i < newSize && 0 <= j < newSize ==>
        r.value[i, j] == if newCopyY0 <= i < newCopyY1 && newCopyX0 <= j < newCopyX1
          then arr[i - newCopyY0 + origCopyY0, j - newCopyX0 + origCopyX0]
          else ArgListToArgArrIntended(bkgValue, channels).value
    {
      if !isFit {
        return Err(ValueError);
      }
      var bkg := ArgListToArgArrIntended(bkgValue, channels);
      if bkg.Err? {
        return Err(bkg.error);
      }
      var out := BuildCrop(arr, Current(), bkg.value);
      return Ok(out);
    }
  }
}
