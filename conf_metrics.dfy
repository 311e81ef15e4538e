/** Per-class confusion metrics (module `goripy.conf.metrics`). Each metric
    divides with `numpy.divide(num, den, where=den != 0)` and then writes
    NaN into every class without positive or without negative examples
    (accuracy: every class without examples). */
module ConfMetrics {
  import opened ConfNum

  /** The classes the metric is NaN for: no positives or no negatives. */
  predicate Degenerate(a: Aggs)
  {
    P(a) == 0.0 || N(a) == 0.0
  }

  /** `prec_metric_fun` on one class: tp / (tp + fp). */
  function Precision(a: Aggs): (r: Float)
    ensures r.NaN? <==> Degenerate(a)
    ensures r.Unspec? <==> !Degenerate(a) && a.tp + a.fp == 0.0
    ensures r.Num? ==> r.v == a.tp / (a.tp + a.fp)
    ensures !r.Inf?
  {
    if Degenerate(a) then NaN else DivideWhere(a.tp, a.tp + a.fp)
  }

  /** `rec_metric_fun` on one class: tp / (tp + fn). The denominator is the
      class's positives, so the division is always written. */
  function Recall(a: Aggs): (r: Float)
    ensures r.NaN? <==> Degenerate(a)
    ensures !Degenerate(a) ==> r == Num(a.tp / P(a))
  {
    if Degenerate(a) then NaN else DivideWhere(a.tp, a.tp + a.fn)
  }

  /** `acc_metric_fun` on one class: (tp + tn) / total, NaN only without examples. */
  function Accuracy(a: Aggs): (r: Float)
    ensures r.NaN? <==> P(a) + N(a) == 0.0
    ensures P(a) + N(a) != 0.0 ==> r == Num((a.tp + a.tn) / (a.tp + a.fp + a.fn + a.tn))
  {
    var den := a.tp + a.fp + a.fn + a.tn;
    if den == 0.0 then NaN else DivideWhere(a.tp + a.tn, den)
  }

  /** `f1_metric_fun` on one class: 2 tp / (2 tp + fp + fn). */
  function F1Score(a: Aggs): (r: Float)
    ensures r.NaN? <==> Degenerate(a)
    ensures r.Unspec? <==> !Degenerate(a) && 2.0 * a.tp + a.fp + a.fn == 0.0
    ensures r.Num? ==> r.v == 2.0 * a.tp / (2.0 * a.tp + a.fp + a.fn)
    ensures !r.Inf?
  {
    if Degenerate(a) then NaN else DivideWhere(2.0 * a.tp, 2.0 * a.tp + a.fp + a.fn)
  }

  /** `f1b_metric_fun` on one class: the square of `b` is taken once, then
      the score is computed from it. */
  function FBeta(a: Aggs, b: real): (r: Float)
    ensures r.NaN? <==> Degenerate(a)
    ensures !r.Inf?
  {
    FBetaOf(a, b * b)
  }

  /** The F-beta score from `b2` = b²: (1 + b2) tp / ((1 + b2) tp + fp + b2 fn). */
  function FBetaOf(a: Aggs, b2: real): (r: Float)
    ensures r.NaN? <==> Degenerate(a)
    ensures r.Unspec? <==> !Degenerate(a) && (1.0 + b2) * a.tp + a.fp + b2 * a.fn == 0.0
    ensures r.Num? ==> r.v == (1.0 + b2) * a.tp / ((1.0 + b2) * a.tp + a.fp + b2 * a.fn)
    ensures !r.Inf?
  {
    if Degenerate(a) then NaN else DivideWhere((1.0 + b2) * a.tp, (1.0 + b2) * a.tp + a.fp + b2 * a.fn)
  }

  /** The metric `f` names, on one class. */
  function MetricOf(f: MetricFun, a: Aggs): Float
  {
    match f
    case Prec => Precision(a)
    case Rec => Recall(a)
    case Acc => Accuracy(a)
    case F1 => F1Score(a)
    case F1b(b) => FBeta(a, b)
  }

  /** The metric functions on the four columns `tp, fp, fn, tn`, which
      numpy evaluates class by class. */
  function Elementwise(f: MetricFun, tp: seq<real>, fp: seq<real>, fn: seq<real>, tn: seq<real>): (r: seq<Float>)
    requires |fp| == |tp| && |fn| == |tp| && |tn| == |tp|
    ensures |r| == |tp|
    ensures forall i :: 0 <= i < |tp| ==> r[i] == MetricOf(f, Aggs(tp[i], fp[i], fn[i], tn[i]))
  {
    seq(|tp|, i requires 0 <= i < |tp| => MetricOf(f, Aggs(tp[i], fp[i], fn[i], tn[i])))
  }

  // ---- relations between the metrics ----

  /** With b = 1, the F-beta score is the F1 score. */
  lemma FBetaOneIsF1(a: Aggs)
    ensures FBeta(a, 1.0) == F1Score(a)
  {
  }

  /** With b = 0, the F-beta score is precision. */
  lemma FBetaZeroIsPrecision(a: Aggs)
    ensures FBeta(a, 0.0) == Precision(a)
  {
  }

  /** Where precision and recall are positive, F1 is their harmonic mean. */
  lemma F1IsHarmonicMean(a: Aggs)
    requires NonNeg(a) && !Degenerate(a) && a.tp > 0.0
    ensures Precision(a).Num? && Recall(a).Num? && F1Score(a).Num?
    ensures Precision(a).v > 0.0 && Recall(a).v > 0.0
    ensures var pr, rc := Precision(a).v, Recall(a).v;
      F1Score(a).v == 2.0 * pr * rc / (pr + rc)
  {
    var t, x, y := a.tp, a.tp + a.fp, a.tp + a.fn;
    DivPositive(t, x);
    DivPositive(t, y);
    assert 2.0 * a.tp + a.fp + a.fn == x + y;
    Harmonic(t, x, y);
  }

  lemma DivPositive(t: real, x: real)
    requires t > 0.0 && x > 0.0
    ensures t / x > 0.0
  {
    assert (t / x) * x == t;
  }

  lemma Harmonic(t: real, x: real, y: real)
    requires t > 0.0 && x > 0.0 && y > 0.0
    ensures 2.0 * (t / x) * (t / y) / (t / x + t / y) == 2.0 * t / (x + y)
  {
    var pr, rc, h := t / x, t / y, 2.0 * t / (x + y);
    assert pr * x == t && rc * y == t && h * (x + y) == 2.0 * t;
    var q := x * y;
    var lhs := h * (pr + rc);
    assert lhs * q == h * ((pr * x) * y + (rc * y) * x);
    assert lhs * q == t * (h * (x + y));
    var rhs := 2.0 * pr * rc;
    assert rhs * q == 2.0 * (pr * x) * (rc * y);
    assert lhs * q == rhs * q;
    assert q > 0.0;
    assert lhs == rhs;
    assert pr > 0.0 && rc > 0.0;
    assert rhs / (pr + rc) == h;
  }

  /** On counts, every defined metric lies between 0 and 1. */
  lemma MetricsInUnitInterval(a: Aggs, b: real)
    requires NonNeg(a)
    ensures Precision(a).Num? ==> 0.0 <= Precision(a).v <= 1.0
    ensures Recall(a).Num? ==> 0.0 <= Recall(a).v <= 1.0
    ensures Accuracy(a).Num? ==> 0.0 <= Accuracy(a).v <= 1.0
    ensures F1Score(a).Num? ==> 0.0 <= F1Score(a).v <= 1.0
    ensures FBeta(a, b).Num? ==> 0.0 <= FBeta(a, b).v <= 1.0
  {
    if Precision(a).Num? {
      RatioInUnit(a.tp, a.fp);
    }
    if Recall(a).Num? {
      RatioInUnit(a.tp, a.fn);
    }
    if Accuracy(a).Num? {
      RatioInUnit(a.tp + a.tn, a.fp + a.fn);
    }
    if F1Score(a).Num? {
      RatioInUnit(2.0 * a.tp, a.fp + a.fn);
    }
    if FBeta(a, b).Num? {
      FBetaInUnit(a, b);
    }
  }

  lemma FBetaInUnit(a: Aggs, b: real)
    requires NonNeg(a) && FBeta(a, b).Num?
    ensures 0.0 <= FBeta(a, b).v <= 1.0
  {
    Square(b);
    FBetaRatio(a, b * b);
  }

  lemma FBetaRatio(a: Aggs, b2: real)
    requires NonNeg(a) && b2 >= 0.0 && (1.0 + b2) * a.tp + a.fp + b2 * a.fn != 0.0
    ensures 0.0 <= (1.0 + b2) * a.tp / ((1.0 + b2) * a.tp + a.fp + b2 * a.fn) <= 1.0
  {
    var x, y := (1.0 + b2) * a.tp, a.fp + b2 * a.fn;
    NonNegProduct(1.0 + b2, a.tp);
    NonNegProduct(b2, a.fn);
    assert x + y == (1.0 + b2) * a.tp + a.fp + b2 * a.fn;
    RatioInUnit(x, y);
  }

  lemma NonNegProduct(x: real, y: real)
    requires x >= 0.0 && y >= 0.0
    ensures x * y >= 0.0
  {
  }

  lemma RatioInUnit(x: real, y: real)
    requires x >= 0.0 && y >= 0.0 && x + y != 0.0
    ensures 0.0 <= x / (x + y) <= 1.0
  {
  }

  /** On counts, only precision (and F-beta with b = 0) can be left
      unwritten: recall, accuracy and F1 always have a non-zero
      denominator where they are not NaN, and precision's is zero exactly
      when a class with positives and negatives has no predicted positive. */
  lemma UnwrittenCells(a: Aggs, b2: real)
    requires NonNeg(a)
    ensures !Recall(a).Unspec? && !Accuracy(a).Unspec? && !F1Score(a).Unspec?
    ensures b2 > 0.0 ==> !FBetaOf(a, b2).Unspec?
    ensures Precision(a).Unspec? <==> a.tp == 0.0 && a.fp == 0.0 && a.fn > 0.0 && a.tn > 0.0
  {
    if !Degenerate(a) && b2 > 0.0 {
      FBetaDenominator(a, b2);
    }
  }

  /** With b != 0, a class with positives has a positive F-beta denominator. */
  lemma FBetaDenominator(a: Aggs, b2: real)
    requires NonNeg(a) && P(a) != 0.0 && b2 > 0.0
    ensures (1.0 + b2) * a.tp + a.fp + b2 * a.fn > 0.0
  {
    var tp, fp, fn := a.tp, a.fp, a.fn;
    NonNegProduct(b2, fn);
    NonNegProduct(1.0 + b2, tp);
    if tp == 0.0 {
      PositiveProduct(b2, fn);
    } else {
      PositiveProduct(1.0 + b2, tp);
    }
  }

  lemma PositiveProduct(x: real, y: real)
    requires x > 0.0 && y > 0.0
    ensures x * y > 0.0
  {
  }

  lemma Square(b: real)
    ensures b * b >= 0.0 && (b != 0.0 ==> b * b > 0.0)
  {
    if b > 0.0 {
      PositiveProduct(b, b);
    } else if b < 0.0 {
      PositiveProduct(-b, -b);
    }
  }
}
