/** Index search and discretised linear spacing (module `goripy.array.misc`). */
module ArrayMisc {
  import opened Results
  import opened Seqs
  import opened PyNum

  /** The first index of `v` in `arr` (`numpy.argwhere(arr == v)[0][0]`),
      `None` when `v` does not occur. */
  function FirstIndex<T(==)>(arr: seq<T>, v: T): (r: Option<nat>)
    ensures r.None? <==> v !in arr
    ensures r.Some? ==> r.value < |arr| && arr[r.value] == v && forall k :: 0 <= k < r.value ==> arr[k] != v
  {
    if arr == [] then None
    else if arr[0] == v then Some(0)
    else match FirstIndex(arr[1..], v)
      case None => None
      case Some(k) => Some(k + 1)
  }

  /** `first_argwhere_zidxs(arr, vals)`: for each value in turn, the index
      of its first occurrence; the first value that does not occur is a
      ValueError. */
  method FirstArgwhereZidxs<T(==)>(arr: seq<T>, vals: seq<T>) returns (r: Result<seq<nat>>)
    ensures r.Err? <==> exists j :: 0 <= j < |vals| && vals[j] !in arr
    ensures r.Err? ==> r.error == ValueError
    ensures r.Ok? ==> |r.value| == |vals|
    ensures r.Ok? ==> forall j :: 0 <= j < |vals| ==>
      r.value[j] < |arr| && arr[r.value[j]] == vals[j] &&
      (forall k :: 0 <= k < r.value[j] ==> arr[k] != vals[j])
  {
    var zidxs: seq<nat> := [];
    for j := 0 to |vals|
      invariant |zidxs| == j
      invariant forall m :: 0 <= m < j ==> vals[m] in arr && zidxs[m] < |arr| && arr[zidxs[m]] == vals[m]
      invariant forall m, k :: 0 <= m < j && 0 <= k < zidxs[m] ==> arr[k] != vals[m]
    {
      var argw := FirstIndex(arr, vals[j]);
      if argw.None? {
        return Err(ValueError);
      }
      zidxs := zidxs + [argw.value];
    }
    return Ok(zidxs);
  }

  /** `numpy.linspace(start, stop, num)`, exactly: `num` evenly spaced
      points from `start` to `stop` inclusive. */
  function Linspace(start: real, stop: real, num: nat): (r: seq<real>)
    ensures |r| == num
    ensures num >= 1 ==> r[0] == start
    ensures num >= 2 ==> r[num - 1] == stop
  {
    if num == 1 then [start]
    else
      var step := (stop - start) / (num - 1) as real;
      seq(num, i requires 0 <= i < num => if i == num - 1 then stop else start + i as real * step)
  }

  /** `numpy.round(...).astype("int")`. */
  function RoundAll(s: seq<real>): (r: seq<int>)
    ensures |r| == |s|
  {
    seq(|s|, i requires 0 <= i < |s| => RoundHalfEven(s[i]))
  }

  /** `limits[1:] - limits[:-1]`. */
  function Steps(limits: seq<int>): (r: seq<int>)
    ensures |r| == if |limits| == 0 then 0 else |limits| - 1
  {
    if |limits| <= 1 then [] else seq(|limits| - 1, i requires 0 <= i < |limits| - 1 => limits[i + 1] - limits[i])
  }

  /** `discrete_linspace_sizes(start, stop, num)`; a negative `num` is
      numpy's ValueError. */
  function DiscreteLinspaceSizes(start: real, stop: real, num: int): (r: Result<seq<int>>)
    ensures r.Err? <==> num < 0
    ensures r.Err? ==> r.error == ValueError
    ensures r.Ok? ==> |r.value| == if num == 0 then 0 else num - 1
  {
    if num < 0 then Err(ValueError)
    else Ok(Steps(RoundAll(Linspace(start, stop, num))))
  }

  /** Adjacent differences telescope to the last entry less the first. */
  lemma {:induction false} StepsSum(limits: seq<int>)
    requires |limits| >= 1
    ensures Sum(Steps(limits)) == limits[|limits| - 1] - limits[0]
    decreases |limits|
  {
    if |limits| > 1 {
      var init := limits[..|limits| - 1];
      StepsSum(init);
      if |init| > 1 {
        assert Steps(limits)[..|limits| - 2] == Steps(init);
      }
    }
  }

  /** The sizes add up to `round(stop) - round(start)`. */
  lemma LinspaceSizesSum(start: real, stop: real, num: int)
    requires num >= 2
    ensures Sum(DiscreteLinspaceSizes(start, stop, num).value) == RoundHalfEven(stop) - RoundHalfEven(start)
  {
    StepsSum(RoundAll(Linspace(start, stop, num)));
  }

  /** From a lower start to a higher stop, no size is negative. */
  lemma LinspaceSizesNonNeg(start: real, stop: real, num: int)
    requires num >= 2 && start <= stop
    ensures forall i :: 0 <= i < num - 1 ==> DiscreteLinspaceSizes(start, stop, num).value[i] >= 0
  {
    var pts := Linspace(start, stop, num);
    var step := (stop - start) / (num - 1) as real;
    assert step >= 0.0;
    forall i | 0 <= i < num - 1
      ensures pts[i] <= pts[i + 1]
    {
      if i + 1 == num - 1 {
        assert (num - 2) as real * step <= (num - 1) as real * step;
        assert (num - 1) as real * step == stop - start;
      } else {
        assert (i + 1) as real * step == i as real * step + step;
      }
    }
    forall i | 0 <= i < num - 1
      ensures DiscreteLinspaceSizes(start, stop, num).value[i] >= 0
    {
      RoundMonotone(pts[i], pts[i + 1]);
    }
  }
}
