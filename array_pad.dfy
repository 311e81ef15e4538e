/** Removing padding from an n-dimensional array (module `goripy.array.pad`). */
module ArrayPad {
  import opened Results
  import opened Seqs
  import opened PyNum

  /** An n-dimensional array: its shape and its element at each index
      vector (meaningful inside the shape). */
  datatype NdArray<T> = NdArray(shape: seq<nat>, at: seq<int> -> T)

  /** `idx` moved by `offsets` in every dimension. */
  function Shift(idx: seq<int>, offsets: seq<nat>): (r: seq<int>)
    requires |idx| == |offsets|
    ensures |r| == |idx| && forall i :: 0 <= i < |idx| ==> r[i] == idx[i] + offsets[i]
  {
    seq(|idx|, i requires 0 <= i < |idx| => idx[i] + offsets[i])
  }

  /** The slice `dim_size - after` below `before`, in the dimension's range. */
  function DimSlice(dim: nat, pads: (int, int)): (nat, nat)
  {
    Slice(Some(pads.0), Some(dim - pads.1), dim)
  }

  /** `crop_array_pads(array, pad_width)`: the `(before, after)` pairs of
      `pad_width`, repeated over the dimensions, cut `before` leading and
      `after` trailing entries from each dimension with Python slice
      semantics. A dimension count that `len(pad_width)` does not divide is
      a ValueError; an empty `pad_width` fails at the modulo. */
  function CropArrayPads<T>(a: NdArray<T>, padWidth: seq<(int, int)>): (r: Result<NdArray<T>>)
  {
    var n, m := |a.shape|, |padWidth|;
    if m == 0 then Err(ZeroDivisionError)
    else if n % m != 0 then Err(ValueError)
    else
      var padsList := ListRepeat(padWidth, n / m);
      var bounds := seq(n, i requires 0 <= i < n => DimSlice(a.shape[i], padsList[i]));
      var lows := seq(n, i requires 0 <= i < n => bounds[i].0);
      Ok(NdArray(seq(n, i requires 0 <= i < n => bounds[i].1 - bounds[i].0),
                 idx => if |idx| == n then a.at(Shift(idx, lows)) else a.at(idx)))
  }

  /** The pads of dimension `i` are pair `i mod len(pad_width)`. */
  lemma PadsCycle(padWidth: seq<(int, int)>, n: nat)
    requires |padWidth| > 0 && n % |padWidth| == 0
    ensures |ListRepeat(padWidth, n / |padWidth|)| == n
    ensures forall i :: 0 <= i < n ==> ListRepeat(padWidth, n / |padWidth|)[i] == padWidth[i % |padWidth|]
  {
    ListRepeatAt(padWidth, n / |padWidth|);
  }

  /** Which inputs fail, and how; a result keeps the dimension count and
      slices each dimension with the cyclically repeated pair. */
  lemma CropArrayPadsSpec<T>(a: NdArray<T>, padWidth: seq<(int, int)>)
    ensures CropArrayPads(a, padWidth).Err? <==> padWidth == [] || |a.shape| % |padWidth| != 0
    ensures padWidth == [] ==> CropArrayPads(a, padWidth) == Err(ZeroDivisionError)
    ensures padWidth != [] && |a.shape| % |padWidth| != 0 ==> CropArrayPads(a, padWidth) == Err(ValueError)
    ensures CropArrayPads(a, padWidth).Ok? ==> var c := CropArrayPads(a, padWidth).value;
      |c.shape| == |a.shape| &&
      forall i :: 0 <= i < |a.shape| ==>
        var b := DimSlice(a.shape[i], padWidth[i % |padWidth|]);
        c.shape[i] == b.1 - b.0 && c.shape[i] <= a.shape[i]
  {
    if padWidth != [] && |a.shape| % |padWidth| == 0 {
      PadsCycle(padWidth, |a.shape|);
    }
  }

  /** Every index inside the cropped shape reads an index inside the
      original shape. */
  lemma CropStaysInside<T>(a: NdArray<T>, padWidth: seq<(int, int)>, idx: seq<int>)
    requires CropArrayPads(a, padWidth).Ok?
    requires var c := CropArrayPads(a, padWidth).value;
      |idx| == |c.shape| && forall i :: 0 <= i < |idx| ==> 0 <= idx[i] < c.shape[i]
    ensures exists src: seq<int> ::
      CropArrayPads(a, padWidth).value.at(idx) == a.at(src) &&
      |src| == |a.shape| && forall i :: 0 <= i < |src| ==> idx[i] <= src[i] < a.shape[i]
  {
    var n, m := |a.shape|, |padWidth|;
    var padsList := ListRepeat(padWidth, n / m);
    var bounds := seq(n, i requires 0 <= i < n => DimSlice(a.shape[i], padsList[i]));
    var lows := seq(n, i requires 0 <= i < n => bounds[i].0);
    var src := Shift(idx, lows);
    assert CropArrayPads(a, padWidth).value.at(idx) == a.at(src);
  }

  /** Pads that fit their dimension: dimension `i` shrinks to
      `dim - before - after` and the element at `idx` is the input element
      at `idx + before`. */
  lemma CropInRange<T>(a: NdArray<T>, padWidth: seq<(int, int)>, idx: seq<int>)
    requires padWidth != [] && |a.shape| % |padWidth| == 0
    requires forall i :: 0 <= i < |a.shape| ==> var p := padWidth[i % |padWidth|];
      0 <= p.0 && 0 <= p.1 && p.0 + p.1 <= a.shape[i]
    requires |idx| == |a.shape|
    ensures CropArrayPads(a, padWidth).Ok?
    ensures forall i :: 0 <= i < |a.shape| ==>
      CropArrayPads(a, padWidth).value.shape[i] == a.shape[i] - padWidth[i % |padWidth|].0 - padWidth[i % |padWidth|].1
    ensures CropArrayPads(a, padWidth).value.at(idx) ==
      a.at(seq(|idx|, i requires 0 <= i < |idx| => idx[i] + padWidth[i % |padWidth|].0))
  {
    var n, m := |a.shape|, |padWidth|;
    PadsCycle(padWidth, n);
    var padsList := ListRepeat(padWidth, n / m);
    var bounds := seq(n, i requires 0 <= i < n => DimSlice(a.shape[i], padsList[i]));
    var lows := seq(n, i requires 0 <= i < n => bounds[i].0);
    forall i | 0 <= i < n
      ensures bounds[i] == (padWidth[i % m].0, a.shape[i] - padWidth[i % m].1)
    {
      SliceInRange(padWidth[i % m].0, a.shape[i] - padWidth[i % m].1, a.shape[i]);
    }
    assert Shift(idx, lows) == seq(|idx|, i requires 0 <= i < |idx| => idx[i] + padWidth[i % m].0);
  }
}
