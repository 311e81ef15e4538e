/** A 2-D list packed into a padded 2-D array (module `goripy.array.list`). */
module ArrayList {
  import opened Results
  import opened Seqs

  /** The kinds of numpy dtype `llist_to_arrr` tells apart, each integer and
      floating dtype with its largest value (`iinfo(dtype).max`,
      `finfo(dtype).max`). */
  datatype DType<T> = Integer(intMax: T) | Floating(floatMax: T) | Other

  /** The padding value: the one given, otherwise the dtype's largest value;
      other dtypes have no default. */
  function PadValue<T>(dtype: DType<T>, invalid: Option<T>): (r: Result<T>)
    ensures r.Err? <==> invalid.None? && dtype.Other?
    ensures r.Err? ==> r.error == ValueError
    ensures invalid.Some? ==> r == Ok(invalid.value)
    ensures invalid.None? && dtype.Integer? ==> r == Ok(dtype.intMax)
    ensures invalid.None? && dtype.Floating? ==> r == Ok(dtype.floatMax)
  {
    if invalid.Some? then Ok(invalid.value)
    else match dtype
      case Integer(m) => Ok(m)
      case Floating(m) => Ok(m)
      case Other => Err(ValueError)
  }

  /** The column count: the one given, otherwise the longest sublist. The
      default on an empty list is `max` of nothing, a ValueError. */
  function Width<T>(llist: seq<seq<T>>, dim1: Option<int>): (r: Result<int>)
    ensures r.Err? <==> dim1.None? && llist == []
    ensures r.Err? ==> r.error == ValueError
    ensures dim1.Some? ==> r == Ok(dim1.value)
    ensures dim1.None? && llist != [] ==> r == Ok(Max(Lengths(llist)))
  {
    if dim1.Some? then Ok(dim1.value)
    else if llist == [] then Err(ValueError)
    else Ok(Max(Lengths(llist)))
  }

  /** Some sublist is longer than `w` columns and cannot be broadcast into
      its row prefix: a one-element sublist broadcasts into any prefix,
      even the empty one of a zero-width row. */
  predicate TooLong<T>(llist: seq<seq<T>>, w: int)
  {
    exists i :: 0 <= i < |llist| && |llist[i]| > w && |llist[i]| != 1
  }

  /** `llist_to_arrr(llist, dtype, dim1, invalid)`: a `len(llist)` x `dim1`
      array full of the padding value, whose row `i` then starts with
      `llist[i]`. Every failure is a ValueError: no width for an empty list,
      no padding for the dtype, a negative width (`numpy.full`), or a
      sublist of two or more elements longer than the width (the row
      assignment cannot broadcast). A sublist that fits starts its row; a
      one-element sublist facing a zero-width row writes nothing. */
  method LlistToArrr<T>(llist: seq<seq<T>>, dtype: DType<T>, dim1: Option<int>, invalid: Option<T>)
    returns (r: Result<seq<seq<T>>>)
    ensures r.Err? <==>
      Width(llist, dim1).Err? || PadValue(dtype, invalid).Err? ||
      Width(llist, dim1).value < 0 || TooLong(llist, Width(llist, dim1).value)
    ensures r.Err? ==> r.error == ValueError
    ensures r.Ok? ==> var w, pad := Width(llist, dim1).value, PadValue(dtype, invalid).value;
      |r.value| == |llist| &&
      forall i :: 0 <= i < |llist| ==>
        |r.value[i]| == w && (|llist[i]| <= w ==> r.value[i][..|llist[i]|] == llist[i]) &&
        forall j :: |llist[i]| <= j < w ==> r.value[i][j] == pad
  {
    var width := Width(llist, dim1);
    if width.Err? {
      return Err(ValueError);
    }
    var padding := PadValue(dtype, invalid);
    if padding.Err? {
      return Err(ValueError);
    }
    var w, pad := width.value, padding.value;
    if w < 0 {
      return Err(ValueError);
    }
    var arrr := Repeat(Repeat(pad, w), |llist|);
    for i := 0 to |llist|
      invariant |arrr| == |llist|
      invariant forall k :: 0 <= k < |llist| ==> |arrr[k]| == w
      invariant forall k :: 0 <= k < i ==> |llist[k]| <= w || |llist[k]| == 1
      invariant forall k :: 0 <= k < i && |llist[k]| <= w ==> arrr[k][..|llist[k]|] == llist[k]
      invariant forall k, j :: 0 <= k < |llist| && |llist[k]| <= j < w ==> arrr[k][j] == pad
    {
      if |llist[i]| > w {
        if |llist[i]| != 1 {
          return Err(ValueError);
        }
      } else {
        arrr := arrr[i := llist[i] + arrr[i][|llist[i]|..]];
        assert arrr[i][..|llist[i]|] == llist[i];
      }
    }
    return Ok(arrr);
  }
}
