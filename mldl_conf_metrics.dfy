/** The older confusion metrics (module `goripy.mldl.conf_metrics`). Each
    metric divides with `numpy.divide(num, den, where=den != 0)` and then
    writes NaN exactly where its own denominator is zero. With
    `pn_weighted`, the columns are first divided by the class's positives
    or negatives, again with `where=`, so a class without positives (or
    without negatives) keeps unwritten cells: they are `Unset`, and every
    metric computed from one is unspecified. */
module MldlConfMetrics {
  import opened Results
  import opened ConfNum
  import CM = ConfMetrics
  import CA = ConfAggs

  /** One entry of a column handed to a metric function. */
  datatype Cell = Known(v: real) | Unset

  /** The four columns of one class: tp, fp, fn, tn. */
  datatype Cells = Cells(tp: Cell, fp: Cell, fn: Cell, tn: Cell)

  /** `divide(num, den, where=den != 0)` followed by `metric[den == 0] = nan`. */
  function Masked(num: real, den: real): (r: Float)
    ensures r.NaN? <==> den == 0.0
    ensures den != 0.0 ==> r == Num(num / den)
    ensures !r.Unspec? && !r.Inf?
  {
    if den == 0.0 then NaN else Num(num / den)
  }

  /** `prec_metric_fun`: tp / (tp + fp). */
  function Precision(a: Aggs): Float
  {
    Masked(a.tp, a.tp + a.fp)
  }

  /** `rec_metric_fun`: tp / (tp + fn). */
  function Recall(a: Aggs): Float
  {
    Masked(a.tp, a.tp + a.fn)
  }

  /** `acc_metric_fun`: (tp + tn) / (tp + fp + fn + tn). */
  function Accuracy(a: Aggs): Float
  {
    Masked(a.tp + a.tn, a.tp + a.fp + a.fn + a.tn)
  }

  /** `f1_metric_fun`: 2 tp / (2 tp + fp + fn). */
  function F1Score(a: Aggs): Float
  {
    Masked(2.0 * a.tp, 2.0 * a.tp + a.fp + a.fn)
  }

  /** `f1b_metric_fun`: the square of `b` is taken once, then the score is
      computed from it. */
  function FBeta(a: Aggs, b: real): Float
  {
    FBetaOf(a, b * b)
  }

  /** The F-beta score from `b2` = b². */
  function FBetaOf(a: Aggs, b2: real): Float
  {
    Masked((1.0 + b2) * a.tp, (1.0 + b2) * a.tp + a.fp + b2 * a.fn)
  }

  /** The metric `f` names, on one class. */
  function MetricOf(f: MetricFun, a: Aggs): Float
  {
    match f
    case Prec => Precision(a)
    case Rec => Recall(a)
    case Acc => Accuracy(a)
    case F1 => F1Score(a)
    case F1b(b) => FBeta(a, b)
  }

  /** Each metric is NaN exactly where its own denominator is zero, and
      otherwise is its numerator over its denominator. */
  lemma MetricsNaNAtZeroDenominator(a: Aggs, b2: real)
    ensures Precision(a).NaN? <==> a.tp + a.fp == 0.0
    ensures Recall(a).NaN? <==> a.tp + a.fn == 0.0
    ensures Accuracy(a).NaN? <==> a.tp + a.fp + a.fn + a.tn == 0.0
    ensures F1Score(a).NaN? <==> 2.0 * a.tp + a.fp + a.fn == 0.0
    ensures FBetaOf(a, b2).NaN? <==> (1.0 + b2) * a.tp + a.fp + b2 * a.fn == 0.0
    ensures !FBetaOf(a, b2).NaN? ==>
      FBetaOf(a, b2) == Num((1.0 + b2) * a.tp / ((1.0 + b2) * a.tp + a.fp + b2 * a.fn))
    ensures !Precision(a).NaN? ==> Precision(a) == Num(a.tp / (a.tp + a.fp))
    ensures !Recall(a).NaN? ==> Recall(a) == Num(a.tp / (a.tp + a.fn))
    ensures !Accuracy(a).NaN? ==> Accuracy(a) == Num((a.tp + a.tn) / (a.tp + a.fp + a.fn + a.tn))
    ensures !F1Score(a).NaN? ==> F1Score(a) == Num(2.0 * a.tp / (2.0 * a.tp + a.fp + a.fn))
  {
  }

  /** Where a class has positives and negatives and the newer metric is
      defined, both modules compute the same value. */
  lemma AgreesWithConfMetrics(f: MetricFun, a: Aggs)
    requires !CM.Degenerate(a) && CM.MetricOf(f, a).Num?
    ensures MetricOf(f, a) == CM.MetricOf(f, a)
  {
  }

  /** The metric on cells: unspecified once a cell it reads is unwritten. */
  function CellMetric(f: MetricFun, c: Cells): (r: Float)
    ensures !r.Inf?
  {
    if Unset in Used(f, c) then Unspec
    else MetricOf(f, Aggs(Value(c.tp), Value(c.fp), Value(c.fn), Value(c.tn)))
  }

  /** The cells the metric `f` reads. */
  function Used(f: MetricFun, c: Cells): seq<Cell>
  {
    match f
    case Prec => [c.tp, c.fp]
    case Rec => [c.tp, c.fn]
    case Acc => [c.tp, c.fp, c.fn, c.tn]
    case F1 => [c.tp, c.fp, c.fn]
    case F1b(_) => [c.tp, c.fp, c.fn]
  }

  /** The value of a written cell; an unwritten cell that the metric does
      not read is given 0. */
  function Value(c: Cell): real
  {
    if c.Known? then c.v else 0.0
  }

  /** `x / d` where `d` is non-zero, unwritten elsewhere. */
  function Weigh(x: real, d: real): (r: Cell)
    ensures r.Unset? <==> d == 0.0
  {
    if d != 0.0 then Known(x / d) else Unset
  }

  /** The columns of one class that `compute_conf_metric_arr` hands to the
      metric: copies of the aggregates, or with `pn_weighted` tp and fn over
      the positives and fp and tn over the negatives. */
  function Columns(a: Aggs, pnWeighted: bool): Cells
  {
    if pnWeighted then Cells(Weigh(a.tp, P(a)), Weigh(a.fp, N(a)), Weigh(a.fn, P(a)), Weigh(a.tn, N(a)))
    else Cells(Known(a.tp), Known(a.fp), Known(a.fn), Known(a.tn))
  }

  /** `compute_conf_metric_arr`: the metric of every class, from its columns. */
  function ComputeConfMetricArr(conf: seq<Aggs>, f: MetricFun, pnWeighted: bool): (r: seq<Float>)
    ensures |r| == |conf| && forall i :: 0 <= i < |conf| ==> r[i] == CellMetric(f, Columns(conf[i], pnWeighted))
  {
    seq(|conf|, i requires 0 <= i < |conf| => CellMetric(f, Columns(conf[i], pnWeighted)))
  }

  /** Without weighting every entry is the metric of the class's aggregates. */
  lemma UnweightedIsMetric(conf: seq<Aggs>, f: MetricFun, i: nat)
    requires i < |conf|
    ensures ComputeConfMetricArr(conf, f, false)[i] == MetricOf(f, conf[i])
  {
  }

  /** With weighting, a class without positives or negatives gets an
      unspecified precision, accuracy, F1 and F-beta; its recall is
      unspecified exactly when it has no positives, and otherwise is its
      unweighted recall. */
  lemma WeightedDegenerate(a: Aggs, f: MetricFun)
    requires P(a) == 0.0 || N(a) == 0.0
    ensures !f.Rec? ==> CellMetric(f, Columns(a, true)).Unspec?
    ensures f.Rec? ==> (CellMetric(f, Columns(a, true)).Unspec? <==> P(a) == 0.0)
  {
  }

  /** Weighting does not change recall where the class has positives. */
  lemma WeightedRecall(a: Aggs)
    requires P(a) != 0.0
    ensures CellMetric(Rec, Columns(a, true)) == Recall(a)
  {
    CA.SplitQuotient(a.tp, a.fn, P(a));
  }

  /** With weighting, accuracy is the balanced accuracy: the mean of the
      true-positive and true-negative rates. */
  lemma WeightedAccuracyIsBalanced(a: Aggs)
    requires P(a) != 0.0 && N(a) != 0.0
    ensures CellMetric(Acc, Columns(a, true)) == Num((a.tp / P(a) + a.tn / N(a)) / 2.0)
  {
    CA.SplitQuotient(a.tp, a.fn, P(a));
    CA.SplitQuotient(a.fp, a.tn, N(a));
    var c := Columns(a, true);
    assert Value(c.tp) + Value(c.fp) + Value(c.fn) + Value(c.tn) == 2.0;
  }

  /** `compute_conf_metric_avg`: no method is a ValueError; "macro" is the
      NaN-ignoring mean; "micro" weights each metric by its class's
      positives with a plain sum; any other string leaves `metric` unbound,
      an UnboundLocalError. Metrics whose length cannot be broadcast against
      the classes are numpy's ValueError. */
  function ComputeConfMetricAvg(metric: seq<Float>, conf: seq<Aggs>, average: Option<string>): (r: Result<Float>)
    ensures average.None? ==> r == Err(ValueError)
    ensures average == Some("macro") ==> r == Ok(NanMean(metric))
    ensures average.Some? && average.value != "macro" && average.value != "micro" ==> r == Err(UnboundLocalError)
    ensures average == Some("micro") ==> (r.Err? <==> Broadcast(metric, Nums(Positives(conf))).None?)
  {
    match average
    case None => Err(ValueError)
    case Some(m) =>
      if m == "macro" then Ok(NanMean(metric))
      else if m == "micro" then
        var p := Positives(conf);
        match Broadcast(metric, Nums(p))
        case None => Err(ValueError)
        case Some(prod) => Ok(Div(Sum(prod), Num(RSum(p))))
      else Err(UnboundLocalError)
  }

  /** The macro average is the one of `goripy.conf.aggs`. */
  lemma MacroAgrees(metric: seq<Float>, conf: seq<Aggs>)
    ensures ComputeConfMetricAvg(metric, conf, Some("macro")) == CA.ComputeConfMetricAvg(metric, conf, "macro")
  {
  }

  /** A NaN metric on any class makes the micro average NaN, since the sum
      does not skip it (NaN times a count of zero is NaN too). */
  lemma MicroNaNPropagates(metric: seq<Float>, conf: seq<Aggs>, i: nat)
    requires |metric| == |conf| && i < |metric| && metric[i].NaN?
    requires forall j :: 0 <= j < |metric| ==> !metric[j].Unspec?
    ensures ComputeConfMetricAvg(metric, conf, Some("micro")) == Ok(NaN)
  {
    var p := Positives(conf);
    var prod := Broadcast(metric, Nums(p)).value;
    forall j | 0 <= j < |prod|
      ensures !prod[j].Unspec?
    {
      CA.BroadcastEqual(metric, Nums(p), j);
    }
    CA.BroadcastEqual(metric, Nums(p), i);
    SumNaN(prod, i);
  }

  /** Without NaN metrics the micro average is the one of `goripy.conf.aggs`. */
  lemma MicroAgreesWithoutNaN(metric: seq<Float>, conf: seq<Aggs>)
    requires |metric| == |conf| && forall j :: 0 <= j < |metric| ==> metric[j].Num?
    ensures ComputeConfMetricAvg(metric, conf, Some("micro")) == CA.ComputeConfMetricAvg(metric, conf, "micro")
  {
    var p := Positives(conf);
    var prod := Broadcast(metric, Nums(p)).value;
    forall j | 0 <= j < |prod|
      ensures prod[j].Num?
    {
      CA.BroadcastEqual(metric, Nums(p), j);
    }
    SumOfNums(prod);
  }
}
