/** Aspect-preserving target sizes and centred padding of images (module
    `goripy.img.utils`). */
module ImgUtils {
  import opened Results
  import opened PyNum
  import opened Args
  import opened ImgBorderFill
  import opened ImgMaskCrop

  /** `m / c` in Python 3 (true division), exactly. */
  function Ratio(m: int, c: int): real
    requires c != 0
  {
    m as real / c as real
  }

  /** `round(c * (m / d))`. */
  function ScaleSide(c: int, m: int, d: int): int
    requires d != 0
  {
    RoundHalfEven(c as real * Ratio(m, d))
  }

  /** `compute_target_img_size_max(curr_size, max_size)`: scale by the
      smaller of the two ratios `max / curr`, the other side rounded half
      to even. A zero current side is Python's ZeroDivisionError. */
  function TargetSizeMax(currH: int, currW: int, maxH: int, maxW: int): (r: Result<(int, int)>)
    ensures r.Err? <==> currH == 0 || currW == 0
    ensures r.Err? ==> r.error == ZeroDivisionError
  {
    if currH == 0 || currW == 0 then Err(ZeroDivisionError)
    else if Ratio(maxH, currH) < Ratio(maxW, currW) then Ok((maxH, ScaleSide(currW, maxH, currH)))
    else Ok((ScaleSide(currH, maxW, currW), maxW))
  }

  /** `compute_target_img_size_min(curr_size, min_size)`: scale by the
      larger of the two ratios `min / curr`. */
  function TargetSizeMin(currH: int, currW: int, minH: int, minW: int): (r: Result<(int, int)>)
    ensures r.Err? <==> currH == 0 || currW == 0
    ensures r.Err? ==> r.error == ZeroDivisionError
  {
    if currH == 0 || currW == 0 then Err(ZeroDivisionError)
    else if Ratio(minH, currH) > Ratio(minW, currW) then Ok((minH, ScaleSide(currW, minH, currH)))
    else Ok((ScaleSide(currH, minW, currW), minW))
  }

  lemma ScaledBelow(c: int, a: real, b: real)
    requires c > 0 && a <= b
    ensures c as real * a <= c as real * b
  {
    assert c as real * b - c as real * a == c as real * (b - a);
  }

  lemma RatioTimes(c: int, m: int)
    requires c > 0
    ensures c as real * Ratio(m, c) == m as real
  {
  }

  /** Side A scaled by its own ratio lands on `mA`; side B scaled by the
      same ratio rounds to within half a unit, and stays at or below
      (`below`) or at or above (`!below`) `mB` when A's ratio is the
      smaller (larger) one. */
  lemma ScaledPair(cA: int, cB: int, mA: int, mB: int, below: bool)
    requires cA > 0 && cB > 0
    requires if below then Ratio(mA, cA) <= Ratio(mB, cB) else Ratio(mA, cA) >= Ratio(mB, cB)
    ensures cA as real * Ratio(mA, cA) == mA as real
    ensures -0.5 <= ScaleSide(cB, mA, cA) as real - cB as real * Ratio(mA, cA) <= 0.5
    ensures below ==> ScaleSide(cB, mA, cA) <= mB
    ensures !below ==> ScaleSide(cB, mA, cA) >= mB
  {
    RatioTimes(cA, mA);
    RatioTimes(cB, mB);
    if below {
      ScaledBelow(cB, Ratio(mA, cA), Ratio(mB, cB));
      RoundBelow(cB as real * Ratio(mA, cA), mB);
    } else {
      ScaledBelow(cB, Ratio(mB, cB), Ratio(mA, cA));
      RoundAbove(cB as real * Ratio(mA, cA), mB);
    }
  }

  /** With positive current sides the `_max` size fits inside `max_size`,
      reaches it on one side, and is the current size scaled by the smaller
      ratio, up to rounding. */
  lemma TargetSizeMaxSpec(currH: int, currW: int, maxH: int, maxW: int)
    requires currH > 0 && currW > 0
    ensures var (h, w) := TargetSizeMax(currH, currW, maxH, maxW).value;
      h <= maxH && w <= maxW && (h == maxH || w == maxW)
    ensures var (h, w) := TargetSizeMax(currH, currW, maxH, maxW).value;
      var k := if Ratio(maxH, currH) < Ratio(maxW, currW) then Ratio(maxH, currH) else Ratio(maxW, currW);
      -0.5 <= h as real - currH as real * k <= 0.5 && -0.5 <= w as real - currW as real * k <= 0.5
  {
    if Ratio(maxH, currH) < Ratio(maxW, currW) {
      ScaledPair(currH, currW, maxH, maxW, true);
    } else {
      ScaledPair(currW, currH, maxW, maxH, true);
    }
  }

  /** With positive current sides the `_min` size covers `min_size`,
      equals it on one side, and is the current size scaled by the larger
      ratio, up to rounding. */
  lemma TargetSizeMinSpec(currH: int, currW: int, minH: int, minW: int)
    requires currH > 0 && currW > 0
    ensures var (h, w) := TargetSizeMin(currH, currW, minH, minW).value;
      h >= minH && w >= minW && (h == minH || w == minW)
    ensures var (h, w) := TargetSizeMin(currH, currW, minH, minW).value;
      var k := if Ratio(minH, currH) > Ratio(minW, currW) then Ratio(minH, currH) else Ratio(minW, currW);
      -0.5 <= h as real - currH as real * k <= 0.5 && -0.5 <= w as real - currW as real * k <= 0.5
  {
    if Ratio(minH, currH) > Ratio(minW, currW) {
      ScaledPair(currH, currW, minH, minW, false);
    } else {
      ScaledPair(currW, currH, minW, minH, false);
    }
  }

  /** `pad_fill_img(img, size, fill_value)` as written, on an image with
      `ndim` dimensions: anything but 2 or 3 dimensions is a ValueError;
      every other image reaches the two-argument `arg_list_to_arg_arr`
      call, a TypeError for the missing `target_dtype`. */
  function PadFillImg(ndim: nat, size: Arg, fillValue: Arg): (r: Result<()>)
    ensures r.Err?
    ensures ndim != 2 && ndim != 3 ==> r.error == ValueError
    ensures ndim == 2 || ndim == 3 ==> r.error == TypeError
  {
    if ndim != 2 && ndim != 3 then Err(ValueError) else Err(TypeError)
  }

  /** The padded size after `astype(numpy.uint16)`. */
  function U16(x: int): (r: nat)
    ensures r < 0x1_0000 && (0 <= x < 0x1_0000 ==> r == x)
  {
    x % 0x1_0000
  }

  /** One of the eight fill assignments reaches cell `(i, j)` of an
      `sh x sw` image whose copy rectangle is `[y0, y1) x [x0, x1)`. */
  predicate InFillRegions(y0: int, y1: int, x0: int, x1: int, sh: nat, sw: nat, i: nat, j: nat)
  {
    var top, bot := 0 <= i < y0, y1 <= i < sh;
    var left, right := 0 <= j < x0, x1 <= j < sw;
    var midY, midX := y0 <= i < y1, x0 <= j < x1;
    (top && left) || (top && right) || (bot && left) || (bot && right) ||
    (top && midX) || (bot && midX) || (midY && left) || (midY && right)
  }

  /** The corners and the sides cover exactly the cells outside the copied
      rectangle. */
  lemma FillRegionsComplement(y0: int, y1: int, x0: int, x1: int, sh: nat, sw: nat, i: nat, j: nat)
    requires 0 <= y0 <= y1 <= sh && 0 <= x0 <= x1 <= sw && i < sh && j < sw
    ensures InFillRegions(y0, y1, x0, x1, sh, sw, i, j) <==> !(y0 <= i < y1 && x0 <= j < x1)
  {
  }

  /** The eight fill assignments, corners first, in source order. */
  method FillEight(out: array2<seq<int>>, y0: nat, y1: nat, x0: nat, x1: nat, v: seq<int>)
    requires y0 <= y1 <= out.Length0 && x0 <= x1 <= out.Length1
    modifies out
    ensures forall i, j :: 0 <= i < out.Length0 && 0 <= j < out.Length1 ==>
      out[i, j] == if InFillRegions(y0, y1, x0, x1, out.Length0, out.Length1, i, j) then v else old(out[i, j])
  {
    var sh, sw := out.Length0, out.Length1;
    FillRect(out, 0, y0, 0, x0, v);
    FillRect(out, 0, y0, x1, sw, v);
    FillRect(out, y1, sh, 0, x0, v);
    FillRect(out, y1, sh, x1, sw, v);
    FillRect(out, 0, y0, x0, x1, v);
    FillRect(out, y1, sh, x0, x1, v);
    FillRect(out, y0, y1, 0, x0, v);
    FillRect(out, y0, y1, x1, sw, v);
  }

  /** An image side of `n` cells can be assigned into the copy window of a
      target side of `s` cells: the window has exactly `n` cells when the
      target is at least as large; otherwise the window is clipped below
      `n`, and numpy broadcasts only a single row or column, into the empty
      window of a zero-sized target. */
  predicate SideFits(n: nat, s: nat)
  {
    s >= n || (n == 1 && s == 0)
  }

  /** `pad_fill_img` with `target_dtype` passed to both expansions. The
      size expands to two values cast to `uint16`, the fill value to one per
      channel; the image is copied into a fresh image of that size at
      offset `((S_h - h) // 2, (S_w - w) // 2)` and the rest is filled. A
      target side the image side cannot be broadcast into is numpy's
      ValueError. */
  method PadFillImgIntended(img: array2<seq<int>>, ndim: nat, channels: nat, size: Arg, fillValue: Arg)
    returns (r: Result<array2<seq<int>>>)
    ensures ndim != 2 && ndim != 3 ==> r == Err(ValueError)
    ensures (ndim == 2 || ndim == 3) && ArgListToArgArrIntended(size, 2).Err? ==>
      r == Err(ArgListToArgArrIntended(size, 2).error)
    ensures (ndim == 2 || ndim == 3) && ArgListToArgArrIntended(size, 2).Ok? ==>
      var fill := ArgListToArgArrIntended(fillValue, if ndim == 2 then 1 else channels);
      (fill.Err? ==> r == Err(fill.error)) &&
      (fill.Ok? ==> var sz := ArgListToArgArrIntended(size, 2).value;
        (r.Ok? <==> SideFits(img.Length0, U16(sz[0])) && SideFits(img.Length1, U16(sz[1]))) &&
        (r.Err? ==> r.error == ValueError))
    ensures r.Ok? ==>
      var sz := ArgListToArgArrIntended(size, 2).value;
      var fill := ArgListToArgArrIntended(fillValue, if ndim == 2 then 1 else channels);
      var sh, sw := U16(sz[0]), U16(sz[1]);
      var y0, x0 := (sh - img.Length0) / 2, (sw - img.Length1) / 2;
      fresh(r.value) && fill.Ok? && r.value.Length0 == sh && r.value.Length1 == sw &&
      (sh < img.Length0 || sw < img.Length1 ==> sh == 0 || sw == 0) &&
      (sh >= img.Length0 && sw >= img.Length1 ==>
        0 <= y0 && y0 + img.Length0 <= sh && 0 <= x0 && x0 + img.Length1 <= sw) &&
      forall i, j :: 0 <= i < sh && 0 <= j < sw ==>
        r.value[i, j] == if y0 <= i < y0 + img.Length0 && x0 <= j < x0 + img.Length1
          then img[i - y0, j - x0] else fill.value
  {
    if ndim != 2 && ndim != 3 {
      return Err(ValueError);
    }
    var sz := ArgListToArgArrIntended(size, 2);
    if sz.Err? {
      return Err(sz.error);
    }
    IntendedRepeats(size, 2);
    var fill := ArgListToArgArrIntended(fillValue, if ndim == 2 then 1 else channels);
    if fill.Err? {
      return Err(fill.error);
    }
    var sh, sw := U16(sz.value[0]), U16(sz.value[1]);
    var h, w := img.Length0, img.Length1;
    if !SideFits(h, sh) || !SideFits(w, sw) {
      return Err(ValueError);
    }
    if sh < h || sw < w {
      var empty := new seq<int>[sh, sw];
      return Ok(empty);
    }
    var y0, x0 := (sh - h) / 2, (sw - w) / 2;
    var y1, x1 := y0 + h, x0 + w;
    var out := new seq<int>[sh, sw];
    CopyWindow(out, img, y0, y1, x0, x1, 0, 0);
    FillEight(out, y0, y1, x0, x1, fill.value);
    forall i, j | 0 <= i < sh && 0 <= j < sw
      ensures InFillRegions(y0, y1, x0, x1, sh, sw, i, j) <==> !(y0 <= i < y1 && x0 <= j < x1)
    {
      FillRegionsComplement(y0, y1, x0, x1, sh, sw, i, j);
    }
    return Ok(out);
  }
}
