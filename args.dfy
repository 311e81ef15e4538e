/** Expanding a scalar-or-sequence argument to a fixed number of values
    (module `goripy.args`). */
module Args {
  import opened Results
  import opened PyNum

  /** What an argument can be: a single number, a Python list or tuple, or
      a numpy array. */
  datatype Arg = Scalar(v: int) | Sequence(items: seq<int>) | NdArray(items: seq<int>)

  /** `numpy_array * k`: every element multiplied by `k`. */
  function Times(s: seq<int>, k: int): (r: seq<int>)
    ensures |r| == |s| && forall i :: 0 <= i < |s| ==> r[i] == s[i] * k
  {
    seq(|s|, i requires 0 <= i < |s| => s[i] * k)
  }

  /** `arg_list_to_arg_arr(arg, target_len, target_dtype)` as written, the
      dtype cast left out. A sequence of length `l` must divide
      `target_len` (ValueError; an empty one fails at the modulo) and is
      then multiplied by `target_len // l`: list repetition for a list or
      tuple, but elementwise multiplication for a numpy array. A scalar
      is repeated `target_len` times. */
  function ArgListToArgArr(arg: Arg, targetLen: int): (r: Result<seq<int>>)
  {
    match arg
    case Scalar(v) => Ok(ListRepeat([v], targetLen))
    case Sequence(s) =>
      if |s| == 0 then Err(ZeroDivisionError)
      else if targetLen % |s| != 0 then Err(ValueError)
      else Ok(ListRepeat(s, targetLen / |s|))
    case NdArray(s) =>
      if |s| == 0 then Err(ZeroDivisionError)
      else if targetLen % |s| != 0 then Err(ValueError)
      else Ok(Times(s, targetLen / |s|))
  }

  /** The same with a numpy array repeated like a list, as the docstring
      describes. */
  function ArgListToArgArrIntended(arg: Arg, targetLen: int): (r: Result<seq<int>>)
  {
    match arg
    case Scalar(v) => Ok(ListRepeat([v], targetLen))
    case _ =>
      var s := arg.items;
      if |s| == 0 then Err(ZeroDivisionError)
      else if targetLen % |s| != 0 then Err(ValueError)
      else Ok(ListRepeat(s, targetLen / |s|))
  }

  /** The error cases, shared by both readings. */
  lemma ArgErrors(arg: Arg, targetLen: int)
    ensures ArgListToArgArr(arg, targetLen).Err? <==> ArgListToArgArrIntended(arg, targetLen).Err?
    ensures ArgListToArgArr(arg, targetLen).Err? <==>
      !arg.Scalar? && (|arg.items| == 0 || targetLen % |arg.items| != 0)
    ensures !arg.Scalar? && |arg.items| == 0 ==> ArgListToArgArr(arg, targetLen) == Err(ZeroDivisionError)
    ensures !arg.Scalar? && |arg.items| != 0 && targetLen % |arg.items| != 0 ==>
      ArgListToArgArr(arg, targetLen) == Err(ValueError)
  {
  }

  /** A list, a tuple or a scalar becomes `target_len` values (none when
      `target_len` is negative), value `i` being `arg[i mod len(arg)]`. */
  lemma ListArgRepeats(arg: Arg, targetLen: int)
    requires !arg.NdArray?
    requires ArgListToArgArr(arg, targetLen).Ok?
    ensures var r := ArgListToArgArr(arg, targetLen).value;
      |r| == (if targetLen < 0 then 0 else targetLen) &&
      forall i :: 0 <= i < |r| ==> r[i] == (if arg.Scalar? then arg.v else arg.items[i % |arg.items|])
  {
    if arg.Scalar? {
      ListRepeatAt([arg.v], targetLen);
    } else {
      var l := |arg.items|;
      ListRepeatAt(arg.items, targetLen / l);
      assert l * (targetLen / l) == targetLen;
    }
  }

  /** Read as intended, every kind of sequence repeats cyclically. */
  lemma IntendedRepeats(arg: Arg, targetLen: int)
    requires ArgListToArgArrIntended(arg, targetLen).Ok?
    ensures var r := ArgListToArgArrIntended(arg, targetLen).value;
      |r| == (if targetLen < 0 then 0 else targetLen) &&
      forall i :: 0 <= i < |r| ==> r[i] == (if arg.Scalar? then arg.v else arg.items[i % |arg.items|])
  {
    if arg.Scalar? {
      ListRepeatAt([arg.v], targetLen);
    } else {
      var l := |arg.items|;
      ListRepeatAt(arg.items, targetLen / l);
      assert l * (targetLen / l) == targetLen;
    }
  }

  /** The two readings agree on everything but numpy arrays. */
  lemma IntendedAgrees(arg: Arg, targetLen: int)
    requires !arg.NdArray?
    ensures ArgListToArgArrIntended(arg, targetLen) == ArgListToArgArr(arg, targetLen)
  {
  }

  /** As written, a numpy array `[1, 2]` expanded to length 4 comes back as
      `[2, 4]`, where the docstring asks for `[1, 2, 1, 2]`. */
  lemma NdArrayMultiplies()
    ensures ArgListToArgArr(NdArray([1, 2]), 4) == Ok([2, 4])
    ensures ArgListToArgArrIntended(NdArray([1, 2]), 4) == Ok([1, 2, 1, 2])
  {
    assert ListRepeat([1, 2], 1) == [1, 2];
    assert ListRepeat([1, 2], 2) == [1, 2] + ListRepeat([1, 2], 1) == [1, 2, 1, 2];
    assert ArgListToArgArrIntended(NdArray([1, 2]), 4) == Ok(ListRepeat([1, 2], 4 / 2));
    assert Times([1, 2], 2) == [2, 4];
  }
}
