/** The older copy of the square mask cropper (module
    `goripy.img.mask_cropper`). Its `fit` computes the window exactly as
    module ImgMaskCrop does; its `crop` expands the background with a
    two-argument call to `arg_list_to_arg_arr`, whose third parameter
    has no default. */
module ImgMaskCropper {
  import opened Results
  import opened Grids
  import opened MaskBbox
  import opened Args
  import opened ImgMaskCrop

  class SquareMaskCropper {
    var isFit: bool
    var newSize: int
    var origCopyY0: int
    var origCopyY1: int
    var origCopyX0: int
    var origCopyX1: int
    var newCopyY0: int
    var newCopyY1: int
    var newCopyX0: int
    var newCopyX1: int

    function Current(): Windows
      reads this
    {
      Windows(newSize, origCopyY0, origCopyY1, origCopyX0, origCopyX1, newCopyY0, newCopyY1, newCopyX0, newCopyX1)
    }

    ghost predicate Valid()
      reads this
    {
      isFit ==> WindowsValid(Current())
    }

    constructor ()
      ensures Valid() && !isFit
    {
      isFit := false;
    }

    /** `fit(mask, border_ratio, min_size)`, the same window as the newer
        copy computes. */
    method Fit(mask: Grid<bool>, borderRatio: real, minSize: int) returns (r: Result<()>)
      requires mask.Valid() && 0.0 <= borderRatio < 1.0
      modifies this
      ensures r.Err? <==> AllFalse(mask)
      ensures r.Err? ==> r.error == IndexError && unchanged(this)
      ensures r.Ok? ==> isFit && Valid() && Bbox(mask).Ok?
      ensures r.Ok? ==> Current() == FitWindows(mask.h, mask.w, Bbox(mask).value, borderRatio, minSize)
    {
      BoxOfMask(mask);
      var box := Bbox(mask);
      if box.Err? {
        return Err(IndexError);
      }
      var b := box.value;
      var wd := FitWindows(mask.h, mask.w, b, borderRatio, minSize);
      assert WindowsValid(wd) by {
        FitWindowsSpec(mask.h, mask.w, b, borderRatio, minSize);
      }
      Store(wd);
      return Ok(());
    }

    /** The field assignments that end a successful `fit`. */
    method Store(wd: Windows)
      requires WindowsValid(wd)
      modifies this
      ensures isFit && Valid() && Current() == wd
    {
      newSize := wd.newSize;
      origCopyY0, origCopyY1, origCopyX0, origCopyX1 := wd.origY0, wd.origY1, wd.origX0, wd.origX1;
      newCopyY0, newCopyY1, newCopyX0, newCopyX1 := wd.newY0, wd.newY1, wd.newX0, wd.newX1;
      isFit := true;
    }

    /** `crop(img, bkg)` as written: a ValueError before `fit`, and after
        it the TypeError of the call missing `target_dtype`, before any
        array is built. */
    method Crop(img: array2<seq<int>>, channels: nat, bkg: Arg) returns (r: Result<array2<seq<int>>>)
      requires Valid()
      ensures !isFit ==> r == Err(ValueError)
      ensures isFit ==> r == Err(TypeError)
    {
      if !isFit {
        return Err(ValueError);
      }
      return Err(TypeError);
    }
  }
}
