/** Normalising and averaging confusion aggregates (module
    `goripy.conf.aggs`). A `C x 4` aggregates array holds one class per row,
    with the columns tp, fp, fn, tn. */
module ConfAggs {
  import opened Results
  import opened ConfNum
  import opened ConfMetrics

  /** Row `i` of a `C x 4` aggregates array. */
  function RowOf(c: array2<real>, i: nat): Aggs
    requires c.Length1 == 4 && i < c.Length0
    reads c
  {
    Aggs(c[i, 0], c[i, 1], c[i, 2], c[i, 3])
  }

  /** The rows of a `C x 4` aggregates array. */
  function Rows(c: array2<real>): (r: seq<Aggs>)
    requires c.Length1 == 4
    reads c
    ensures |r| == c.Length0 && forall i :: 0 <= i < c.Length0 ==> r[i] == RowOf(c, i)
  {
    seq(c.Length0, i requires 0 <= i < c.Length0 reads c => RowOf(c, i))
  }

  /** One class after `pn_normalize_conf_aggs`: tp and fn over the positives,
      fp and tn over the negatives, and zero where that count is zero (the
      division leaves those cells unwritten, then they are set to 0). */
  function NormalizeRow(a: Aggs): Aggs
  {
    var p, n := P(a), N(a);
    Aggs(Share(a.tp, p), Share(a.fp, n), Share(a.fn, p), Share(a.tn, n))
  }

  /** `x / d` where `d` is non-zero, 0 elsewhere. */
  function Share(x: real, d: real): real
  {
    if d != 0.0 then x / d else 0.0
  }

  /** `pn_normalize_conf_aggs`: a fresh float copy of the array, whose cells
      are overwritten with the normalised aggregates; the argument is left
      as it was, since the method modifies nothing it was given. */
  method PnNormalizeConfAggs(confAggs: array2<real>) returns (r: array2<real>)
    requires confAggs.Length1 == 4
    ensures fresh(r) && r.Length0 == confAggs.Length0 && r.Length1 == 4
    ensures forall i :: 0 <= i < r.Length0 ==> RowOf(r, i) == NormalizeRow(RowOf(confAggs, i))
  {
    r := new real[confAggs.Length0, 4];
    var i := 0;
    while i < confAggs.Length0
      invariant 0 <= i <= confAggs.Length0
      invariant forall k :: 0 <= k < i ==> RowOf(r, k) == NormalizeRow(RowOf(confAggs, k))
    {
      var row := NormalizeRow(RowOf(confAggs, i));
      r[i, 0] := row.tp;
      r[i, 1] := row.fp;
      r[i, 2] := row.fn;
      r[i, 3] := row.tn;
      i := i + 1;
    }
  }

  /** After normalisation the positives of a class sum to one when it has
      any and are zero otherwise; likewise the negatives. */
  lemma NormalizedCounts(a: Aggs)
    ensures var r := NormalizeRow(a);
      (P(a) != 0.0 ==> r.tp + r.fn == 1.0) && (P(a) == 0.0 ==> r.tp == 0.0 && r.fn == 0.0) &&
      (N(a) != 0.0 ==> r.fp + r.tn == 1.0) && (N(a) == 0.0 ==> r.fp == 0.0 && r.tn == 0.0)
  {
    if P(a) != 0.0 {
      SplitQuotient(a.tp, a.fn, P(a));
    }
    if N(a) != 0.0 {
      SplitQuotient(a.fp, a.tn, N(a));
    }
  }

  lemma SplitQuotient(x: real, y: real, d: real)
    requires d == x + y && d != 0.0
    ensures x / d + y / d == 1.0
  {
    assert x / d + y / d == (x + y) / d;
  }

  /** Normalising twice is normalising once. */
  lemma NormalizeIdempotent(a: Aggs)
    ensures NormalizeRow(NormalizeRow(a)) == NormalizeRow(a)
  {
    ShareTwice(a.tp, a.fn);
    ShareTwice(a.fp, a.tn);
  }

  lemma ShareTwice(x: real, y: real)
    ensures var x1, y1 := Share(x, x + y), Share(y, x + y);
      Share(x1, x1 + y1) == x1 && Share(y1, x1 + y1) == y1
  {
    if x + y != 0.0 {
      SplitQuotient(x, y, x + y);
    }
  }

  /** Normalisation keeps counts non-negative. */
  lemma NormalizeNonNeg(a: Aggs)
    requires NonNeg(a)
    ensures NonNeg(NormalizeRow(a))
  {
    if P(a) != 0.0 {
      assert a.tp / P(a) >= 0.0 && a.fn / P(a) >= 0.0;
    }
    if N(a) != 0.0 {
      assert a.fp / N(a) >= 0.0 && a.tn / N(a) >= 0.0;
    }
  }

  /** Recall only looks at the positives, so normalisation keeps it. */
  lemma NormalizeKeepsRecall(a: Aggs)
    ensures Recall(NormalizeRow(a)) == Recall(a)
  {
    NormalizedCounts(a);
  }

  /** On normalised aggregates accuracy is the balanced accuracy: the mean of
      the true-positive rate and the true-negative rate. */
  lemma NormalizedAccuracyIsBalanced(a: Aggs)
    requires P(a) != 0.0 && N(a) != 0.0
    ensures Accuracy(NormalizeRow(a)) == Num((a.tp / P(a) + a.tn / N(a)) / 2.0)
  {
    NormalizedCounts(a);
    var r := NormalizeRow(a);
    assert r.tp + r.fp + r.fn + r.tn == 2.0;
  }

  /** `compute_conf_metric_arr`: `metric_fun` on columns 0 to 3 as tp, fp,
      fn, tn, so entry `i` is the metric of class `i`. */
  function ComputeConfMetricArr(conf: seq<Aggs>, f: MetricFun): (r: seq<Float>)
    ensures |r| == |conf| && forall i :: 0 <= i < |conf| ==> r[i] == MetricOf(f, conf[i])
  {
    var tp := seq(|conf|, i requires 0 <= i < |conf| => conf[i].tp);
    var fp := seq(|conf|, i requires 0 <= i < |conf| => conf[i].fp);
    var fn := seq(|conf|, i requires 0 <= i < |conf| => conf[i].fn);
    var tn := seq(|conf|, i requires 0 <= i < |conf| => conf[i].tn);
    Elementwise(f, tp, fp, fn, tn)
  }

  /** `compute_conf_metric_avg`: "macro" is the NaN-ignoring mean of the
      metrics; "micro" weights each metric by its class's positives, sums
      ignoring NaN and divides by all the positives; any other method, and
      metrics whose length cannot be broadcast against the classes, are a
      ValueError. */
  function ComputeConfMetricAvg(metric: seq<Float>, conf: seq<Aggs>, avgMethod: string): (r: Result<Float>)
    ensures r.Err? <==> avgMethod != "macro" && (avgMethod != "micro" || Broadcast(metric, Nums(Positives(conf))).None?)
    ensures r.Err? ==> r.error == ValueError
    ensures avgMethod == "macro" ==> r == Ok(NanMean(metric))
  {
    if avgMethod == "macro" then Ok(NanMean(metric))
    else if avgMethod == "micro" then
      var p := Positives(conf);
      match Broadcast(metric, Nums(p))
      case None => Err(ValueError)
      case Some(prod) => Ok(Div(NanSum(prod), Num(RSum(p))))
    else Err(ValueError)
  }

  /** The macro average of metrics that are all defined is their mean. */
  lemma MacroIsMean(metric: seq<Float>, conf: seq<Aggs>)
    requires AllNum(metric) && metric != []
    ensures ComputeConfMetricAvg(metric, conf, "macro") == Ok(Num(RSum(Values(metric)) / |metric| as real))
  {
    MeanOfNums(metric);
  }

  /** A NaN metric does not change the macro average. */
  lemma MacroIgnoresNaN(metric: seq<Float>, conf: seq<Aggs>)
    ensures ComputeConfMetricAvg(metric + [NaN], conf, "macro") == ComputeConfMetricAvg(metric, conf, "macro")
  {
    NaNIgnored(metric);
  }

  /** Pointwise products of reals. */
  function Products(xs: seq<real>, ys: seq<real>): (r: seq<real>)
    requires |xs| == |ys|
    ensures |r| == |xs| && forall i :: 0 <= i < |xs| ==> r[i] == xs[i] * ys[i]
  {
    seq(|xs|, i requires 0 <= i < |xs| => xs[i] * ys[i])
  }

  /** The micro average of defined metrics `ms`, one per class, is the
      positives-weighted mean. */
  lemma MicroIsWeightedMean(ms: seq<real>, conf: seq<Aggs>)
    requires |ms| == |conf| && RSum(Positives(conf)) != 0.0
    ensures ComputeConfMetricAvg(Nums(ms), conf, "micro")
      == Ok(Num(RSum(Products(ms, Positives(conf))) / RSum(Positives(conf))))
  {
    var p := Positives(conf);
    var prod := Broadcast(Nums(ms), Nums(p)).value;
    var w := Products(ms, p);
    forall i | 0 <= i < |prod|
      ensures prod[i] == Num(w[i])
    {
      BroadcastEqual(Nums(ms), Nums(p), i);
    }
    NanSumOfTerms(prod, w);
  }

  lemma BroadcastEqual(xs: seq<Float>, ys: seq<Float>, i: nat)
    requires |xs| == |ys| && i < |xs|
    ensures Broadcast(xs, ys).Some? && Broadcast(xs, ys).value[i] == Mul(xs[i], ys[i])
  {
  }

  /** A sum ignoring NaN of entries that are either the given value or NaN
      standing for zero. */
  lemma {:induction false} NanSumOfTerms(xs: seq<Float>, vals: seq<real>)
    requires |xs| == |vals|
    requires forall i :: 0 <= i < |xs| ==> xs[i] == Num(vals[i]) || (xs[i].NaN? && vals[i] == 0.0)
    ensures NanSum(xs) == Num(RSum(vals))
  {
    if xs != [] {
      var k := |xs| - 1;
      NanSumOfTerms(xs[..k], vals[..k]);
      assert vals[..k] + [vals[k]] == vals;
    }
  }

  /** What a class adds to the pooled true positives of micro recall: its
      true positives, except for a class that recall leaves NaN. */
  function PooledTp(conf: seq<Aggs>): (r: seq<real>)
    ensures |r| == |conf|
    ensures forall i :: 0 <= i < |conf| ==> r[i] == if Degenerate(conf[i]) then 0.0 else conf[i].tp
  {
    seq(|conf|, i requires 0 <= i < |conf| => if Degenerate(conf[i]) then 0.0 else conf[i].tp)
  }

  /** Micro-averaged recall pools the classes: the true positives of every
      class with positives and negatives over the positives of all classes. */
  lemma MicroRecallPools(conf: seq<Aggs>)
    requires RSum(Positives(conf)) != 0.0
    ensures ComputeConfMetricAvg(ComputeConfMetricArr(conf, Rec), conf, "micro")
      == Ok(Num(RSum(PooledTp(conf)) / RSum(Positives(conf))))
  {
    var metric := ComputeConfMetricArr(conf, Rec);
    var p := Positives(conf);
    var prod := Broadcast(metric, Nums(p)).value;
    forall i | 0 <= i < |prod|
      ensures prod[i] == Num(PooledTp(conf)[i]) || (prod[i].NaN? && PooledTp(conf)[i] == 0.0)
    {
      assert prod[i] == Mul(Recall(conf[i]), Num(P(conf[i])));
      if !Degenerate(conf[i]) {
        RecallTimesPositives(conf[i]);
      }
    }
    NanSumOfTerms(prod, PooledTp(conf));
  }

  lemma RecallTimesPositives(a: Aggs)
    requires !Degenerate(a)
    ensures Mul(Recall(a), Num(P(a))) == Num(a.tp)
  {
    var p := P(a);
    assert a.tp / p * p == a.tp;
  }
}
