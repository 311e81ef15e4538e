/** Filling the border or the centre of an image in place (module
    `goripy.img.border_fill`). An `H x W` image is an `array2` of pixels,
    each pixel the vector of its channel values; a 2-D image has one
    channel. */
module ImgBorderFill {
  import opened Results
  import opened PyNum
  import opened Args

  /** The centre rectangle: rows `[y0, y1)` and columns `[x0, x1)`, each
      bound as written in the source, before slice normalisation. */
  datatype Bounds = Bounds(y0: int, y1: int, x0: int, x1: int)

  /** A cell reached by one of the four border assignments
      `arr[:y0, :]`, `arr[y1:, :]`, `arr[:, :x0]`, `arr[:, x1:]`. */
  predicate InBorder(h: nat, w: nat, b: Bounds, i: nat, j: nat)
  {
    i < Slice(None, Some(b.y0), h).1 || i >= Slice(Some(b.y1), None, h).0 ||
    j < Slice(None, Some(b.x0), w).1 || j >= Slice(Some(b.x1), None, w).0
  }

  /** A cell reached by the centre assignment `arr[y0:y1, x0:x1]`. */
  predicate InCentre(h: nat, w: nat, b: Bounds, i: nat, j: nat)
  {
    var rows, cols := Slice(Some(b.y0), Some(b.y1), h), Slice(Some(b.x0), Some(b.x1), w);
    rows.0 <= i < rows.1 && cols.0 <= j < cols.1
  }

  /** The new value of cell `(i, j)` holding `prev`. */
  function Filled(prev: seq<int>, h: nat, w: nat, b: Bounds, fillBorder: bool, v: seq<int>, i: nat, j: nat): seq<int>
  {
    if (fillBorder && InBorder(h, w, b, i, j)) || (!fillBorder && InCentre(h, w, b, i, j)) then v else prev
  }

  /** One slice assignment `arr[r0:r1, c0:c1] = v` on normalised bounds. */
  method FillRect(arr: array2<seq<int>>, r0: nat, r1: nat, c0: nat, c1: nat, v: seq<int>)
    requires r0 <= r1 <= arr.Length0 && c0 <= c1 <= arr.Length1
    modifies arr
    ensures forall i, j :: 0 <= i < arr.Length0 && 0 <= j < arr.Length1 ==>
      arr[i, j] == if r0 <= i < r1 && c0 <= j < c1 then v else old(arr[i, j])
  {
    for i := r0 to r1
      invariant forall i', j :: 0 <= i' < arr.Length0 && 0 <= j < arr.Length1 ==>
        arr[i', j] == if r0 <= i' < i && c0 <= j < c1 then v else old(arr[i', j])
    {
      for j := c0 to c1
        invariant forall i', j' :: 0 <= i' < arr.Length0 && 0 <= j' < arr.Length1 ==>
          arr[i', j'] == if (r0 <= i' < i && c0 <= j' < c1) || (i' == i && c0 <= j' < j) then v else old(arr[i', j'])
      {
        arr[i, j] := v;
      }
    }
  }

  /** The four border assignments, or the one centre assignment. */
  method FillRegions(arr: array2<seq<int>>, b: Bounds, fillBorder: bool, v: seq<int>)
    modifies arr
    ensures forall i, j :: 0 <= i < arr.Length0 && 0 <= j < arr.Length1 ==>
      arr[i, j] == Filled(old(arr[i, j]), arr.Length0, arr.Length1, b, fillBorder, v, i, j)
  {
    var h, w := arr.Length0, arr.Length1;
    if fillBorder {
      FillRect(arr, 0, Slice(None, Some(b.y0), h).1, 0, w, v);
      FillRect(arr, Slice(Some(b.y1), None, h).0, h, 0, w, v);
      FillRect(arr, 0, h, 0, Slice(None, Some(b.x0), w).1, v);
      FillRect(arr, 0, h, Slice(Some(b.x1), None, w).0, w, v);
    } else {
      var rows, cols := Slice(Some(b.y0), Some(b.y1), h), Slice(Some(b.x0), Some(b.x1), w);
      FillRect(arr, rows.0, rows.1, cols.0, cols.1, v);
    }
  }

  /** The centre of `fill_border_abs`: the border widths taken from each side. */
  function AbsBounds(h: nat, w: nat, top: int, bot: int, left: int, right: int): Bounds
  {
    Bounds(top, h - bot, left, w - right)
  }

  /** `fill_border_abs(arr, top_b, bot_b, left_b, right_b, fill_border,
      fill_value)`: the fill value is first expanded to one value per
      channel, which fails on an empty or non-dividing sequence; otherwise
      the border (or the centre) is overwritten in place. */
  method FillBorderAbs(arr: array2<seq<int>>, channels: nat, top: int, bot: int, left: int, right: int,
                       fillBorder: bool, fillValue: Arg) returns (r: Result<()>)
    modifies arr
    ensures r.Err? <==> ArgListToArgArrIntended(fillValue, channels).Err?
    ensures r.Err? ==> r.error == ArgListToArgArrIntended(fillValue, channels).error && unchanged(arr)
    ensures r.Ok? ==> forall i, j :: 0 <= i < arr.Length0 && 0 <= j < arr.Length1 ==>
      arr[i, j] == Filled(old(arr[i, j]), arr.Length0, arr.Length1, AbsBounds(arr.Length0, arr.Length1, top, bot, left, right),
                          fillBorder, ArgListToArgArrIntended(fillValue, channels).value, i, j)
  {
    var fv := ArgListToArgArrIntended(fillValue, channels);
    if fv.Err? {
      return Err(fv.error);
    }
    FillRegions(arr, AbsBounds(arr.Length0, arr.Length1, top, bot, left, right), fillBorder, fv.value);
    return Ok(());
  }

  /** The centre of `fill_border_rel`: `round(H * (top / 2))` down to
      `round(H * (1 - bot / 2))`, and the same across the width. */
  function RelBounds(h: nat, w: nat, top: real, bot: real, left: real, right: real): Bounds
  {
    Bounds(RoundHalfEven(h as real * (top / 2.0)), RoundHalfEven(h as real * (1.0 - bot / 2.0)),
           RoundHalfEven(w as real * (left / 2.0)), RoundHalfEven(w as real * (1.0 - right / 2.0)))
  }

  /** `fill_border_rel(arr, top_br, bot_br, left_br, right_br, fill_border,
      fill_value)`: as `fill_border_abs` with the centre given by ratios. */
  method FillBorderRel(arr: array2<seq<int>>, channels: nat, top: real, bot: real, left: real, right: real,
                       fillBorder: bool, fillValue: Arg) returns (r: Result<()>)
    modifies arr
    ensures r.Err? <==> ArgListToArgArrIntended(fillValue, channels).Err?
    ensures r.Err? ==> r.error == ArgListToArgArrIntended(fillValue, channels).error && unchanged(arr)
    ensures r.Ok? ==> forall i, j :: 0 <= i < arr.Length0 && 0 <= j < arr.Length1 ==>
      arr[i, j] == Filled(old(arr[i, j]), arr.Length0, arr.Length1, RelBounds(arr.Length0, arr.Length1, top, bot, left, right),
                          fillBorder, ArgListToArgArrIntended(fillValue, channels).value, i, j)
  {
    var fv := ArgListToArgArrIntended(fillValue, channels);
    if fv.Err? {
      return Err(fv.error);
    }
    FillRegions(arr, RelBounds(arr.Length0, arr.Length1, top, bot, left, right), fillBorder, fv.value);
    return Ok(());
  }

  /** With ordered in-range bounds the border and the centre are
      complements, and membership is the plain comparison. */
  lemma BorderIsComplement(h: nat, w: nat, b: Bounds, i: nat, j: nat)
    requires 0 <= b.y0 <= b.y1 <= h && 0 <= b.x0 <= b.x1 <= w
    requires i < h && j < w
    ensures InBorder(h, w, b, i, j) <==> (i < b.y0 || i >= b.y1 || j < b.x0 || j >= b.x1)
    ensures InCentre(h, w, b, i, j) <==> !InBorder(h, w, b, i, j)
  {
    SliceInRange(b.y0, b.y1, h);
    SliceInRange(b.x0, b.x1, w);
  }

  /** Border widths that fit the image give ordered in-range bounds: the
      border is rows above `top_b`, rows from `H - bot_b`, columns left of
      `left_b` and columns from `W - right_b`. */
  lemma AbsBoundsInRange(h: nat, w: nat, top: int, bot: int, left: int, right: int, i: nat, j: nat)
    requires 0 <= top && 0 <= bot && top + bot <= h && 0 <= left && 0 <= right && left + right <= w
    requires i < h && j < w
    ensures InBorder(h, w, AbsBounds(h, w, top, bot, left, right), i, j) <==>
      (i < top || i >= h - bot || j < left || j >= w - right)
    ensures InCentre(h, w, AbsBounds(h, w, top, bot, left, right), i, j) <==>
      !InBorder(h, w, AbsBounds(h, w, top, bot, left, right), i, j)
  {
    BorderIsComplement(h, w, AbsBounds(h, w, top, bot, left, right), i, j);
  }

  /** The rounded position of a ratio in `[0, 1]` of half a dimension from
      the near side and from the far side. */
  lemma HalfRatio(n: nat, r: real, s: real)
    requires 0.0 <= r <= 1.0 && 0.0 <= s <= 1.0
    ensures 0 <= RoundHalfEven(n as real * (r / 2.0)) <= RoundHalfEven(n as real * (1.0 - s / 2.0)) <= n
  {
    var a, b := HalfBounds(n as real, r, s);
    HalfRound(a, b, n);
  }

  lemma HalfRound(a: real, b: real, n: nat)
    requires 0.0 <= a <= b <= n as real
    ensures 0 <= RoundHalfEven(a) <= RoundHalfEven(b) <= n
  {
    RoundAbove(a, 0);
    RoundMonotone(a, b);
    RoundBelow(b, n);
  }

  lemma HalfBounds(x: real, r: real, s: real) returns (a: real, b: real)
    requires x >= 0.0 && 0.0 <= r <= 1.0 && 0.0 <= s <= 1.0
    ensures a == x * (r / 2.0) && b == x * (1.0 - s / 2.0)
    ensures 0.0 <= a <= b <= x
  {
    a, b := x * (r / 2.0), x * (1.0 - s / 2.0);
    ScaleWithin(x, r / 2.0);
    ScaleWithin(x, s / 2.0);
    assert b == x - x * (s / 2.0);
    assert x * 0.5 + x * 0.5 == x;
  }

  lemma ScaleWithin(x: real, t: real)
    requires x >= 0.0 && 0.0 <= t <= 0.5
    ensures 0.0 <= x * t <= x * 0.5
  {
    assert x * 0.5 - x * t == x * (0.5 - t);
  }

  /** Ratios in `[0, 1]` give ordered in-range bounds, so the border and
      the centre of `fill_border_rel` are complements. */
  lemma RelBoundsInRange(h: nat, w: nat, top: real, bot: real, left: real, right: real)
    requires 0.0 <= top <= 1.0 && 0.0 <= bot <= 1.0 && 0.0 <= left <= 1.0 && 0.0 <= right <= 1.0
    ensures var b := RelBounds(h, w, top, bot, left, right);
      0 <= b.y0 <= b.y1 <= h && 0 <= b.x0 <= b.x1 <= w
  {
    HalfRatio(h, top, bot);
    HalfRatio(w, left, right);
  }

  /** A `RandomBorderFiller` with the four ratios its `randomize()` drew. */
  class RandomBorderFiller {
    var topBr: real
    var botBr: real
    var leftBr: real
    var rightBr: real
    var fillBorder: bool
    var fillValue: Arg

    constructor (topBr: real, botBr: real, leftBr: real, rightBr: real, fillBorder: bool, fillValue: Arg)
      ensures this.topBr == topBr && this.botBr == botBr && this.leftBr == leftBr && this.rightBr == rightBr
      ensures this.fillBorder == fillBorder && this.fillValue == fillValue
    {
      this.topBr, this.botBr, this.leftBr, this.rightBr := topBr, botBr, leftBr, rightBr;
      this.fillBorder, this.fillValue := fillBorder, fillValue;
    }

    /** `filler(arr, fill_border, fill_value)`: `fill_border_rel` with the
        drawn ratios; an override given (not `None`) replaces the stored
        value for this call only. */
    method Call(arr: array2<seq<int>>, channels: nat, fillBorderOverride: Option<bool>, fillValueOverride: Option<Arg>)
      returns (r: Result<()>)
      modifies arr
      ensures var fb := if fillBorderOverride.None? then fillBorder else fillBorderOverride.value;
        var fv := ArgListToArgArrIntended(if fillValueOverride.None? then fillValue else fillValueOverride.value, channels);
        (r.Err? <==> fv.Err?) && (r.Err? ==> unchanged(arr)) &&
        (r.Ok? ==> forall i, j :: 0 <= i < arr.Length0 && 0 <= j < arr.Length1 ==>
          arr[i, j] == Filled(old(arr[i, j]), arr.Length0, arr.Length1,
                              RelBounds(arr.Length0, arr.Length1, topBr, botBr, leftBr, rightBr), fb, fv.value, i, j))
    {
      var fb := if fillBorderOverride.None? then fillBorder else fillBorderOverride.value;
      var fv := if fillValueOverride.None? then fillValue else fillValueOverride.value;
      r := FillBorderRel(arr, channels, topBr, botBr, leftBr, rightBr, fb, fv);
    }
  }
}
