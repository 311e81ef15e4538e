/** The numbers of the confusion-matrix utilities: numpy floats as exact
    reals extended with NaN and the two infinities, and per-class
    confusion aggregates. A cell that `numpy.divide(..., where=mask)` does
    not write, because no `out=` array is given, holds whatever the fresh
    array's memory held: it is `Unspec`, and any arithmetic it takes part
    in is unspecified too. */
module ConfNum {
  import opened Results

  datatype Float = Num(v: real) | NaN | Inf(positive: bool) | Unspec

  /** The confusion aggregates of one class, columns 0 to 3 of a row of
      `conf_aggs`: true positives, false positives, false negatives, true
      negatives. */
  datatype Aggs = Aggs(tp: real, fp: real, fn: real, tn: real)

  /** The positive examples of a class. */
  function P(a: Aggs): real
  {
    a.tp + a.fn
  }

  /** The negative examples of a class. */
  function N(a: Aggs): real
  {
    a.fp + a.tn
  }

  /** Aggregates that are counts (or normalised counts): none negative. */
  predicate NonNeg(a: Aggs)
  {
    a.tp >= 0.0 && a.fp >= 0.0 && a.fn >= 0.0 && a.tn >= 0.0
  }

  /** The names of the five metric functions, for `metric_fun`. */
  datatype MetricFun = Prec | Rec | Acc | F1 | F1b(b: real)

  /** `numpy.divide(num, den, where=den != 0)` on one cell. */
  function DivideWhere(num: real, den: real): (r: Float)
    ensures r.Unspec? <==> den == 0.0
    ensures den != 0.0 ==> r == Num(num / den)
  {
    if den != 0.0 then Num(num / den) else Unspec
  }

  /** `x + y`. */
  function Add(x: Float, y: Float): (r: Float)
    ensures x.Num? && y.Num? ==> r == Num(x.v + y.v)
    ensures r.Unspec? <==> x.Unspec? || y.Unspec?
    ensures (x.NaN? || y.NaN?) && !x.Unspec? && !y.Unspec? ==> r.NaN?
  {
    if x.Unspec? || y.Unspec? then Unspec
    else if x.NaN? || y.NaN? then NaN
    else if x.Inf? && y.Inf? then (if x.positive == y.positive then x else NaN)
    else if x.Inf? then x
    else if y.Inf? then y
    else Num(x.v + y.v)
  }

  /** `x * y`; an infinity times zero is NaN. */
  function Mul(x: Float, y: Float): (r: Float)
    ensures x.Num? && y.Num? ==> r == Num(x.v * y.v)
    ensures r.Unspec? <==> x.Unspec? || y.Unspec?
    ensures (x.NaN? || y.NaN?) && !x.Unspec? && !y.Unspec? ==> r.NaN?
  {
    if x.Unspec? || y.Unspec? then Unspec
    else if x.NaN? || y.NaN? then NaN
    else if x.Inf? && y.Inf? then Inf(x.positive == y.positive)
    else if x.Inf? then (if y.v == 0.0 then NaN else Inf(x.positive == (y.v > 0.0)))
    else if y.Inf? then (if x.v == 0.0 then NaN else Inf(y.positive == (x.v > 0.0)))
    else Num(x.v * y.v)
  }

  /** `x / y` on numpy floats: no exception, `0/0` is NaN and a non-zero
      value over zero is an infinity (signed zeros are not told apart). */
  function Div(x: Float, y: Float): (r: Float)
    ensures x.Num? && y.Num? && y.v != 0.0 ==> r == Num(x.v / y.v)
    ensures x.Num? && y == Num(0.0) ==> r == (if x.v == 0.0 then NaN else Inf(x.v > 0.0))
    ensures r.Unspec? <==> x.Unspec? || y.Unspec?
  {
    if x.Unspec? || y.Unspec? then Unspec
    else if x.NaN? || y.NaN? then NaN
    else if x.Inf? && y.Inf? then NaN
    else if x.Inf? then Inf(x.positive == (y.v >= 0.0))
    else if y.Inf? then Num(0.0)
    else if y.v == 0.0 then (if x.v == 0.0 then NaN else Inf(x.v > 0.0))
    else Num(x.v / y.v)
  }

  /** `numpy.sum(xs)`, left to right. */
  function Sum(xs: seq<Float>): Float
  {
    if xs == [] then Num(0.0) else Add(Sum(xs[..|xs| - 1]), xs[|xs| - 1])
  }

  /** `numpy.nansum(xs)`: NaN entries count as zero. */
  function NanSum(xs: seq<Float>): Float
  {
    if xs == [] then Num(0.0)
    else Add(NanSum(xs[..|xs| - 1]), if xs[|xs| - 1].NaN? then Num(0.0) else xs[|xs| - 1])
  }

  /** The entries that are not NaN. */
  function NonNaN(xs: seq<Float>): nat
  {
    if xs == [] then 0 else NonNaN(xs[..|xs| - 1]) + (if xs[|xs| - 1].NaN? then 0 else 1)
  }

  /** `numpy.nanmean(xs)`: the mean of the entries that are not NaN, NaN
      when there are none. */
  function NanMean(xs: seq<Float>): Float
  {
    if NonNaN(xs) == 0 then NaN else Div(NanSum(xs), Num(NonNaN(xs) as real))
  }

  /** The sum of reals. */
  function RSum(xs: seq<real>): real
  {
    if xs == [] then 0.0 else RSum(xs[..|xs| - 1]) + xs[|xs| - 1]
  }

  /** Every entry is a number. */
  predicate AllNum(xs: seq<Float>)
  {
    forall i :: 0 <= i < |xs| ==> xs[i].Num?
  }

  /** The values of entries that are all numbers. */
  function Values(xs: seq<Float>): (r: seq<real>)
    requires AllNum(xs)
    ensures |r| == |xs| && forall i :: 0 <= i < |xs| ==> r[i] == xs[i].v
  {
    if xs == [] then [] else Values(xs[..|xs| - 1]) + [xs[|xs| - 1].v]
  }

  /** On numbers, both sums are the sum of the values. */
  lemma {:induction false} SumOfNums(xs: seq<Float>)
    requires AllNum(xs)
    ensures Sum(xs) == Num(RSum(Values(xs))) && NanSum(xs) == Sum(xs)
    ensures NonNaN(xs) == |xs|
  {
    if xs != [] {
      var front := xs[..|xs| - 1];
      assert AllNum(front);
      SumOfNums(front);
      assert Values(xs)[..|xs| - 1] == Values(front);
    }
  }

  /** On numbers, `nanmean` is the plain mean. */
  lemma MeanOfNums(xs: seq<Float>)
    requires AllNum(xs) && xs != []
    ensures NanMean(xs) == Num(RSum(Values(xs)) / |xs| as real)
  {
    SumOfNums(xs);
    var total := RSum(Values(xs));
    var n := |xs| as real;
    assert n != 0.0;
    assert NanMean(xs) == Div(Num(total), Num(n));
  }

  /** A NaN entry changes neither `nansum` nor `nanmean`. */
  lemma NaNIgnored(xs: seq<Float>)
    ensures NanSum(xs + [NaN]) == NanSum(xs) && NonNaN(xs + [NaN]) == NonNaN(xs)
    ensures NanMean(xs + [NaN]) == NanMean(xs)
  {
    assert (xs + [NaN])[..|xs|] == xs;
    AddZero(NanSum(xs));
  }

  lemma AddZero(x: Float)
    ensures Add(x, Num(0.0)) == x
  {
  }

  /** A NaN entry makes the plain sum NaN, unless something is unspecified. */
  lemma {:induction false} SumNaN(xs: seq<Float>, i: nat)
    requires i < |xs| && xs[i].NaN? && forall j :: 0 <= j < |xs| ==> !xs[j].Unspec?
    ensures Sum(xs) == NaN
  {
    var front := xs[..|xs| - 1];
    if i < |xs| - 1 {
      assert front[i] == xs[i];
      SumNaN(front, i);
    }
    SumNotUnspec(front);
  }

  lemma {:induction false} SumNotUnspec(xs: seq<Float>)
    requires forall j :: 0 <= j < |xs| ==> !xs[j].Unspec?
    ensures !Sum(xs).Unspec?
  {
    if xs != [] {
      SumNotUnspec(xs[..|xs| - 1]);
    }
  }

  /** An unspecified entry makes every sum and mean unspecified. */
  lemma {:induction false} UnspecSpreads(xs: seq<Float>, i: nat)
    requires i < |xs| && xs[i].Unspec?
    ensures Sum(xs).Unspec? && NanSum(xs).Unspec? && NanMean(xs).Unspec?
  {
    var front := xs[..|xs| - 1];
    if i < |xs| - 1 {
      assert front[i] == xs[i];
      UnspecSpreads(front, i);
    }
    NonNaNPositive(xs, i);
  }

  lemma {:induction false} NonNaNPositive(xs: seq<Float>, i: nat)
    requires i < |xs| && !xs[i].NaN?
    ensures NonNaN(xs) >= 1
  {
    if i < |xs| - 1 {
      assert xs[..|xs| - 1][i] == xs[i];
      NonNaNPositive(xs[..|xs| - 1], i);
    }
  }

  /** `x * y` elementwise with numpy broadcasting of a length-one operand;
      other differing lengths are numpy's broadcast ValueError (None). */
  function Broadcast(xs: seq<Float>, ys: seq<Float>): (r: Option<seq<Float>>)
    ensures r.Some? <==> |xs| == |ys| || |xs| == 1 || |ys| == 1
    ensures |xs| == |ys| ==> r == Some(seq(|xs|, i requires 0 <= i < |xs| => Mul(xs[i], ys[i])))
  {
    if |xs| == |ys| then Some(seq(|xs|, i requires 0 <= i < |xs| => Mul(xs[i], ys[i])))
    else if |xs| == 1 then Some(seq(|ys|, i requires 0 <= i < |ys| => Mul(xs[0], ys[i])))
    else if |ys| == 1 then Some(seq(|xs|, i requires 0 <= i < |xs| => Mul(xs[i], ys[0])))
    else None
  }

  /** The positive counts of the classes, `conf_aggs[:, 0] + conf_aggs[:, 2]`. */
  function Positives(conf: seq<Aggs>): (r: seq<real>)
    ensures |r| == |conf| && forall i :: 0 <= i < |conf| ==> r[i] == P(conf[i])
  {
    seq(|conf|, i requires 0 <= i < |conf| => P(conf[i]))
  }

  function Nums(xs: seq<real>): (r: seq<Float>)
    ensures |r| == |xs| && AllNum(r) && Values(r) == xs
    ensures forall i :: 0 <= i < |xs| ==> r[i] == Num(xs[i])
  {
    seq(|xs|, i requires 0 <= i < |xs| => Num(xs[i]))
  }
}
