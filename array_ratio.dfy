/** Integer partition sizes in given ratios (module `goripy.array.ratio`):
    the exact shares are rounded and the rounding error is then spread one
    unit at a time. */
module ArrayRatio {
  import opened Seqs
  import opened PyNum
  import ArrayMisc

  /** `ratios / sum(ratios) * total`, exactly. */
  function Shares(total: int, ratios: seq<real>): (f: seq<real>)
    requires SumReal(ratios) != 0.0
    ensures |f| == |ratios|
  {
    SharesOver(total, ratios, SumReal(ratios))
  }

  /** `ratios / s * total` for a given non-zero sum `s`. */
  function SharesOver(total: int, ratios: seq<real>, s: real): (f: seq<real>)
    requires s != 0.0
    ensures |f| == |ratios|
  {
    seq(|ratios|, i requires 0 <= i < |ratios| => ratios[i] / s * total as real)
  }

  /** `rounded - exact`, entry by entry. */
  function Diffs(r: seq<int>, f: seq<real>): (d: seq<real>)
    requires |r| == |f|
    ensures |d| == |f|
  {
    seq(|f|, i requires 0 <= i < |f| => r[i] as real - f[i])
  }

  /** `order` is what `numpy.argsort(d)` may return: the indices of `d` in
      an order of non-decreasing value. The default sort is not stable, so
      the order among equal values is left open. */
  predicate IsArgsort(order: seq<int>, d: seq<real>)
  {
    Indices(order, |d|) && Distinct(order) &&
    (forall j, k :: 0 <= j < k < |order| ==> d[order[j]] <= d[order[k]])
  }

  /** `order` has `n` entries, each an index below `n`. */
  predicate Indices(order: seq<int>, n: nat)
  {
    |order| == n && forall j :: 0 <= j < |order| ==> 0 <= order[j] < n
  }

  /** No index occurs twice in `order`. */
  predicate Distinct(order: seq<int>)
  {
    forall j, k :: 0 <= j < k < |order| ==> order[j] != order[k]
  }

  /** `s[idxs] += delta` for distinct indices. */
  function Bump(s: seq<int>, idxs: seq<int>, delta: int): (r: seq<int>)
    requires forall j :: 0 <= j < |idxs| ==> 0 <= idxs[j] < |s|
    ensures |r| == |s|
    decreases |idxs|
  {
    if idxs == [] then s
    else
      var last := idxs[|idxs| - 1];
      var r := Bump(s, idxs[..|idxs| - 1], delta);
      r[last := r[last] + delta]
  }

  lemma {:induction false} BumpSum(s: seq<int>, idxs: seq<int>, delta: int)
    requires forall j :: 0 <= j < |idxs| ==> 0 <= idxs[j] < |s|
    ensures Sum(Bump(s, idxs, delta)) == Sum(s) + |idxs| * delta
    decreases |idxs|
  {
    if idxs != [] {
      var last := idxs[|idxs| - 1];
      BumpSum(s, idxs[..|idxs| - 1], delta);
      SumUpdate(Bump(s, idxs[..|idxs| - 1], delta), last, delta);
    }
  }

  lemma {:induction false} BumpAt(s: seq<int>, idxs: seq<int>, delta: int, i: nat)
    requires forall j :: 0 <= j < |idxs| ==> 0 <= idxs[j] < |s|
    requires forall j, k :: 0 <= j < k < |idxs| ==> idxs[j] != idxs[k]
    requires i < |s|
    ensures Bump(s, idxs, delta)[i] == s[i] + (if i in idxs then delta else 0)
    decreases |idxs|
  {
    if idxs != [] {
      var init := idxs[..|idxs| - 1];
      BumpAt(s, init, delta, i);
      assert idxs == init + [idxs[|idxs| - 1]];
      assert i in idxs <==> i in init || i == idxs[|idxs| - 1];
    }
  }

  /** Spreads an error of `d` units over `rounded` in the given order: a
      shortfall adds one to the first `d` indices of `order`
      (`order[:d]`), an excess takes one from its last `-d` (`order[d:]`). */
  function Spread(rounded: seq<int>, order: seq<int>, d: int): (r: seq<int>)
    requires Indices(order, |rounded|)
    ensures |r| == |rounded|
  {
    var n := |rounded|;
    if d > 0 then Bump(rounded, order[..SliceIndex(d, n)], 1)
    else if d < 0 then Bump(rounded, order[SliceIndex(d, n)..], -1)
    else rounded
  }

  /** `discrete_ratio_partition_sizes(total, ratios)`, with `order` the
      `argsort` of the rounding differences. */
  function Partition(total: int, ratios: seq<real>, order: seq<int>): (sizes: seq<int>)
    requires SumReal(ratios) != 0.0
    requires IsArgsort(order, Diffs(ArrayMisc.RoundAll(Shares(total, ratios)), Shares(total, ratios)))
    ensures |sizes| == |ratios|
  {
    var rounded := ArrayMisc.RoundAll(Shares(total, ratios));
    Spread(rounded, order, total - Sum(rounded))
  }

  /** Spreading `d` units, `|d|` at most the length, adds `d` to the sum. */
  lemma SpreadSum(rounded: seq<int>, order: seq<int>, d: int)
    requires Indices(order, |rounded|)
    requires -|rounded| <= d <= |rounded|
    ensures Sum(Spread(rounded, order, d)) == Sum(rounded) + d
  {
    var n := |rounded|;
    if d > 0 {
      BumpSum(rounded, order[..d], 1);
    } else if d < 0 {
      BumpSum(rounded, order[n + d..], -1);
    }
  }

  /** Where each unit of the error goes, for a permutation `order`. */
  lemma SpreadAt(rounded: seq<int>, order: seq<int>, d: int, j: nat)
    requires Indices(order, |rounded|) && Distinct(order)
    requires -|rounded| <= d <= |rounded| && j < |rounded|
    ensures Spread(rounded, order, d)[order[j]] ==
      rounded[order[j]] + (if j < d then 1 else if j >= |rounded| + d then -1 else 0)
  {
    var n := |rounded|;
    if d > 0 {
      var idxs := order[..d];
      BumpAt(rounded, idxs, 1, order[j]);
      assert order[j] in idxs <==> j < d by {
        if j < d { assert idxs[j] == order[j]; }
      }
    } else if d < 0 {
      var idxs := order[n + d..];
      assert forall a :: 0 <= a < |idxs| ==> idxs[a] == order[n + d + a];
      BumpAt(rounded, idxs, -1, order[j]);
      assert order[j] in idxs <==> j >= n + d by {
        if j >= n + d { assert idxs[j - (n + d)] == order[j]; }
      }
    }
  }

  /** `s * c`, entry by entry. */
  function Scale(s: seq<real>, c: real): (r: seq<real>)
    ensures |r| == |s| && forall i :: 0 <= i < |s| ==> r[i] == s[i] * c
  {
    seq(|s|, i requires 0 <= i < |s| => s[i] * c)
  }

  lemma {:induction false} SumRealScale(s: seq<real>, c: real)
    ensures SumReal(Scale(s, c)) == SumReal(s) * c
    decreases |s|
  {
    if s != [] {
      var n := |s| - 1;
      SumRealScale(s[..n], c);
      ScalePrefix(s, c, n);
      Distribute(SumReal(s[..n]), s[n], c);
    }
  }

  lemma ScalePrefix(s: seq<real>, c: real, n: nat)
    requires n <= |s|
    ensures Scale(s, c)[..n] == Scale(s[..n], c)
  {
    assert forall k :: 0 <= k < n ==> Scale(s, c)[..n][k] == Scale(s[..n], c)[k];
  }

  lemma Distribute(x: real, y: real, c: real)
    ensures (x + y) * c == x * c + y * c
  {
  }

  lemma DivTimes(a: real, s: real, t: real)
    requires s != 0.0
    ensures a / s * t == a * (t / s)
  {
  }

  /** The exact shares add up to `total`. */
  lemma SharesSum(total: int, ratios: seq<real>)
    requires SumReal(ratios) != 0.0
    ensures SumReal(Shares(total, ratios)) == total as real
  {
    var s := SumReal(ratios);
    var c := total as real / s;
    forall i | 0 <= i < |ratios|
      ensures Shares(total, ratios)[i] == Scale(ratios, c)[i]
    {
      DivTimes(ratios[i], s, total as real);
    }
    assert Shares(total, ratios) == Scale(ratios, c);
    SumRealScale(ratios, c);
    assert s * (total as real / s) == total as real;
  }

  /** Rounding moves a sum of `n` values by at most `n / 2`. */
  lemma {:induction false} RoundingGap(f: seq<real>)
    ensures -(|f| as real) * 0.5 <= Sum(ArrayMisc.RoundAll(f)) as real - SumReal(f) <= (|f| as real) * 0.5
    decreases |f|
  {
    if f != [] {
      var n := |f| - 1;
      RoundingGap(f[..n]);
      assert ArrayMisc.RoundAll(f)[..n] == ArrayMisc.RoundAll(f[..n]);
    }
  }

  /** The rounding error to spread is at most half the number of entries. */
  lemma ShortfallBound(total: int, ratios: seq<real>)
    requires SumReal(ratios) != 0.0
    ensures var d := total - Sum(ArrayMisc.RoundAll(Shares(total, ratios)));
      2 * d <= |ratios| && -|ratios| <= 2 * d
  {
    SharesSum(total, ratios);
    RoundingGap(Shares(total, ratios));
  }

  /** The sizes add up to exactly `total`. */
  lemma PartitionSum(total: int, ratios: seq<real>, order: seq<int>)
    requires SumReal(ratios) != 0.0
    requires IsArgsort(order, Diffs(ArrayMisc.RoundAll(Shares(total, ratios)), Shares(total, ratios)))
    ensures Sum(Partition(total, ratios, order)) == total
  {
    var rounded := ArrayMisc.RoundAll(Shares(total, ratios));
    ShortfallBound(total, ratios);
    SpreadSum(rounded, order, total - Sum(rounded));
  }

  /** Entry `order[j]` gains one when it is among the `d` smallest
      differences of a shortfall `d`, loses one when it is among the `-d`
      largest of an excess, and otherwise keeps its rounded share; with no
      error the rounded shares come back unchanged. */
  lemma PartitionAt(total: int, ratios: seq<real>, order: seq<int>, j: nat)
    requires SumReal(ratios) != 0.0
    requires IsArgsort(order, Diffs(ArrayMisc.RoundAll(Shares(total, ratios)), Shares(total, ratios)))
    requires j < |ratios|
    ensures var rounded := ArrayMisc.RoundAll(Shares(total, ratios));
      var d := total - Sum(rounded);
      Partition(total, ratios, order)[order[j]] ==
        rounded[order[j]] + (if j < d then 1 else if j >= |ratios| + d then -1 else 0)
  {
    var rounded := ArrayMisc.RoundAll(Shares(total, ratios));
    var d := total - Sum(rounded);
    ShortfallBound(total, ratios);
    PartitionUnfold(total, ratios, order);
    SpreadAt(rounded, order, d, j);
  }

  lemma PartitionUnfold(total: int, ratios: seq<real>, order: seq<int>)
    requires SumReal(ratios) != 0.0
    requires IsArgsort(order, Diffs(ArrayMisc.RoundAll(Shares(total, ratios)), Shares(total, ratios)))
    ensures var rounded := ArrayMisc.RoundAll(Shares(total, ratios));
      Partition(total, ratios, order) == Spread(rounded, order, total - Sum(rounded))
  {
  }

  lemma DivScale(a: real, s: real, c: real)
    requires s != 0.0 && c != 0.0
    ensures (a * c) / (s * c) == a / s
  {
  }

  lemma NonZeroProduct(x: real, y: real)
    requires x != 0.0 && y != 0.0
    ensures x * y != 0.0
  {
  }

  lemma ShareScaled(a: real, ac: real, s: real, sc: real, c: real, t: real)
    requires ac == a * c && sc == s * c && s != 0.0 && c != 0.0
    ensures ac / sc * t == a / s * t
  {
    DivScale(a, s, c);
  }

  /** Scaling every ratio by the same non-zero factor changes nothing. */
  lemma ScaleInvariant(total: int, ratios: seq<real>, c: real, order: seq<int>)
    requires SumReal(ratios) != 0.0 && c != 0.0
    requires IsArgsort(order, Diffs(ArrayMisc.RoundAll(Shares(total, ratios)), Shares(total, ratios)))
    ensures SumReal(Scale(ratios, c)) != 0.0
    ensures Shares(total, Scale(ratios, c)) == Shares(total, ratios)
    ensures Partition(total, Scale(ratios, c), order) == Partition(total, ratios, order)
  {
    SharesScaled(total, ratios, c);
  }

  lemma SharesScaled(total: int, ratios: seq<real>, c: real)
    requires SumReal(ratios) != 0.0 && c != 0.0
    ensures SumReal(Scale(ratios, c)) != 0.0
    ensures Shares(total, Scale(ratios, c)) == Shares(total, ratios)
  {
    SumRealScale(ratios, c);
    SharesOverScaled(total, ratios, c, SumReal(ratios));
    assert Shares(total, Scale(ratios, c)) == SharesOver(total, Scale(ratios, c), SumReal(ratios) * c);
  }

  lemma SharesOverScaled(total: int, ratios: seq<real>, c: real, s: real)
    requires s != 0.0 && c != 0.0
    ensures s * c != 0.0 && SharesOver(total, Scale(ratios, c), s * c) == SharesOver(total, ratios, s)
  {
    NonZeroProduct(s, c);
    forall i | 0 <= i < |ratios|
      ensures SharesOver(total, Scale(ratios, c), s * c)[i] == SharesOver(total, ratios, s)[i]
    {
      ShareScaled(ratios[i], Scale(ratios, c)[i], s, s * c, c, total as real);
    }
  }
}
