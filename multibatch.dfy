/** Multi-dataset batch scheduling (module `goripy.mldl.multibatch`): each
    training step takes batches from the loaders that have made the least
    relative progress until it holds enough items. */
module Multibatch {
  import opened Results
  import opened Seqs
  import opened PyNum

  function Zeros(n: nat): (z: seq<int>)
    ensures |z| == n && forall i :: 0 <= i < n ==> z[i] == 0
  {
    Repeat(0, n)
  }

  /** `curr / len` for one loader, exactly. */
  function Ratio(c: int, l: int): real
    requires l != 0
  {
    c as real / l as real
  }

  predicate Positive(lens: seq<int>)
  {
    forall i :: 0 <= i < |lens| ==> lens[i] >= 1
  }

  /** `d` is the `argmin` of the progress ratios: no loader is behind it,
      and no earlier loader is level with it. */
  predicate IsLeastProgress(curr: seq<int>, lens: seq<int>, d: nat)
    requires |curr| == |lens| && Positive(lens)
  {
    d < |curr| &&
    forall i :: 0 <= i < |curr| ==>
      Ratio(curr[d], lens[d]) < Ratio(curr[i], lens[i]) ||
      (Ratio(curr[d], lens[d]) == Ratio(curr[i], lens[i]) && d <= i)
  }

  /** `numpy.argmin(curr / len)`: the least progress, lowest index on ties. */
  function Pick(curr: seq<int>, lens: seq<int>): (d: nat)
    requires |curr| == |lens| >= 1 && Positive(lens)
    ensures d < |curr|
  {
    if |curr| == 1 then 0
    else
      var last := |curr| - 1;
      var b := Pick(curr[..last], lens[..last]);
      if Ratio(curr[last], lens[last]) < Ratio(curr[b], lens[b]) then last else b
  }

  lemma {:induction false} PickSpec(curr: seq<int>, lens: seq<int>)
    requires |curr| == |lens| >= 1 && Positive(lens)
    ensures IsLeastProgress(curr, lens, Pick(curr, lens))
  {
    if |curr| > 1 {
      var last := |curr| - 1;
      PickSpec(curr[..last], lens[..last]);
      assert forall i :: 0 <= i < last ==> curr[..last][i] == curr[i] && lens[..last][i] == lens[i];
    }
  }

  lemma RatioBelowOne(c: int, l: int)
    requires 0 <= c < l
    ensures Ratio(c, l) < 1.0
  {
  }

  lemma RatioOne(l: int)
    requires l >= 1
    ensures Ratio(l, l) == 1.0
  {
  }

  /** No loader overshoots. */
  predicate Bounded(curr: seq<int>, lens: seq<int>)
  {
    |curr| == |lens| && forall i :: 0 <= i < |curr| ==> 0 <= curr[i] <= lens[i]
  }

  /** While some loader is unfinished, a finished one is never picked. */
  lemma PickUnfinished(curr: seq<int>, lens: seq<int>)
    requires Bounded(curr, lens) && |lens| >= 1 && Positive(lens) && curr != lens
    ensures curr[Pick(curr, lens)] < lens[Pick(curr, lens)]
  {
    var d := Pick(curr, lens);
    PickSpec(curr, lens);
    if curr[d] == lens[d] {
      var i :| 0 <= i < |curr| && curr[i] != lens[i];
      RatioOne(lens[d]);
      RatioBelowOne(curr[i], lens[i]);
      assert false;
    }
  }

  function Remaining(curr: seq<int>, lens: seq<int>): int
  {
    Sum(lens) - Sum(curr)
  }

  lemma RemainingNonNeg(curr: seq<int>, lens: seq<int>)
    requires Bounded(curr, lens)
    ensures Remaining(curr, lens) >= 0
  {
    var diff := seq(|lens|, i requires 0 <= i < |lens| => lens[i] - curr[i]);
    SumDiff(lens, curr);
    SumNonNeg(diff);
  }

  lemma {:induction false} SumDiff(a: seq<int>, b: seq<int>)
    requires |a| == |b|
    ensures Sum(seq(|a|, i requires 0 <= i < |a| => a[i] - b[i])) == Sum(a) - Sum(b)
    decreases |a|
  {
    if a != [] {
      var n := |a| - 1;
      SumDiff(a[..n], b[..n]);
      assert seq(|a|, i requires 0 <= i < |a| => a[i] - b[i])[..n]
        == seq(n, i requires 0 <= i < n => a[..n][i] - b[..n][i]);
    }
  }

  /** `sum(row[j] * per[j])`: the items a step's batches hold. */
  function Items(row: seq<int>, per: seq<real>): real
    requires |row| == |per|
  {
    SumReal(seq(|row|, j requires 0 <= j < |row| => row[j] as real * per[j]))
  }

  /** One more batch from loader `d` adds `per[d]` items. */
  lemma ItemsStep(row: seq<int>, per: seq<real>, d: nat)
    requires |row| == |per| && d < |row|
    ensures Items(row[d := row[d] + 1], per) == Items(row, per) + per[d]
  {
    var s := seq(|row|, j requires 0 <= j < |row| => row[j] as real * per[j]);
    var row' := row[d := row[d] + 1];
    var t := seq(|row|, j requires 0 <= j < |row| => row'[j] as real * per[j]);
    forall j | 0 <= j < |row| ensures t[j] == s[d := s[d] + per[d]][j] {
      if j == d {
        assert (row[d] + 1) as real * per[d] == row[d] as real * per[d] + per[d];
      }
    }
    assert t == s[d := s[d] + per[d]];
    SumRealUpdate(s, d, per[d]);
  }

  lemma ItemsZeros(per: seq<real>)
    ensures Items(Zeros(|per|), per) == 0.0
  {
    var s := seq(|per|, j requires 0 <= j < |per| => Zeros(|per|)[j] as real * per[j]);
    forall j | 0 <= j < |s| ensures s[j] == 0.0 {
      assert Zeros(|per|)[j] == 0;
    }
    SumRealZeros(s);
  }

  // ---------------------------------------------------------------------
  // The dataloader variant: progress counts batches.

  /** The inputs of `compute_multibatches_dataloader`, with the items per
      batch `batch_size * point_size * world_size` already formed as exact
      reals (numpy forms them as floats). */
  datatype Loaders = Loaders(lens: seq<int>, perBatch: seq<real>, minItems: real)
  {
    predicate Shaped()
    {
      |perBatch| == |lens|
    }

    /** The inputs on which the outer loop makes progress. */
    predicate Schedulable()
    {
      minItems > 0.0 && Positive(lens)
    }
  }

  /** The inner loop: starting from progress `curr`, a partial step `row`
      and `items` so far, take a batch from the least-progressed loader
      until the step holds `minItems` items or every loader is finished. */
  function Fill(P: Loaders, curr: seq<int>, row: seq<int>, items: real): (r: (seq<int>, seq<int>, real))
    requires P.Shaped() && Bounded(curr, P.lens) && |row| == |curr|
    requires curr == P.lens || Positive(P.lens)
    ensures |r.0| == |curr| && |r.1| == |row|
    decreases Remaining(curr, P.lens)
  {
    if items >= P.minItems || curr == P.lens then (curr, row, items)
    else
      var d := Pick(curr, P.lens);
      FillTermination(P, curr, d);
      Fill(P, curr[d := curr[d] + 1], row[d := row[d] + 1], items + P.perBatch[d])
  }

  /** One iteration of the inner loop, from loader `d`, with the progress it makes. */
  lemma FillNext(P: Loaders, curr: seq<int>, row: seq<int>, items: real)
    returns (d: nat, curr': seq<int>, row': seq<int>, items': real)
    requires P.Shaped() && Bounded(curr, P.lens) && |row| == |curr| && Positive(P.lens)
    requires items < P.minItems && curr != P.lens
    ensures d == Pick(curr, P.lens) && d < |curr|
    ensures curr' == curr[d := curr[d] + 1] && row' == row[d := row[d] + 1] && items' == items + P.perBatch[d]
    ensures Bounded(curr', P.lens) && 0 <= Remaining(curr', P.lens) < Remaining(curr, P.lens)
    ensures Fill(P, curr, row, items) == Fill(P, curr', row', items')
  {
    d := Pick(curr, P.lens);
    curr', row', items' := curr[d := curr[d] + 1], row[d := row[d] + 1], items + P.perBatch[d];
    FillUnfold(P, curr, row, items, d);
    assert 0 <= Remaining(curr', P.lens) < Remaining(curr, P.lens) by {
      FillTermination(P, curr, d);
    }
  }

  /** The inner loop moves no loader past its length, and makes progress
      whenever it takes a batch. */
  lemma {:induction false} FillProgress(P: Loaders, curr: seq<int>, row: seq<int>, items: real)
    requires P.Shaped() && Bounded(curr, P.lens) && |row| == |curr|
    requires curr == P.lens || Positive(P.lens)
    ensures var r := Fill(P, curr, row, items);
      Bounded(r.0, P.lens) && Remaining(r.0, P.lens) <= Remaining(curr, P.lens) &&
      (items < P.minItems && curr != P.lens ==> Remaining(r.0, P.lens) < Remaining(curr, P.lens))
    decreases Remaining(curr, P.lens)
  {
    if !(items >= P.minItems || curr == P.lens) {
      var d, curr', row', items' := FillNext(P, curr, row, items);
      FillProgress(P, curr', row', items');
    } else {
      FillDone(P, curr, row, items);
    }
  }

  /** The inner loop adds to `row` exactly the batches it takes. */
  lemma {:induction false} FillColumns(P: Loaders, curr: seq<int>, row: seq<int>, items: real)
    requires P.Shaped() && Bounded(curr, P.lens) && |row| == |curr|
    requires curr == P.lens || Positive(P.lens)
    ensures var r := Fill(P, curr, row, items);
      forall j :: 0 <= j < |row| ==> r.1[j] - row[j] == r.0[j] - curr[j]
    decreases Remaining(curr, P.lens)
  {
    if !(items >= P.minItems || curr == P.lens) {
      var d, curr', row', items' := FillNext(P, curr, row, items);
      FillColumns(P, curr', row', items');
    } else {
      FillDone(P, curr, row, items);
    }
  }

  /** The inner loop stops with at least `minItems` items unless every
      loader is finished. */
  lemma {:induction false} FillEnough(P: Loaders, curr: seq<int>, row: seq<int>, items: real)
    requires P.Shaped() && Bounded(curr, P.lens) && |row| == |curr|
    requires curr == P.lens || Positive(P.lens)
    ensures var r := Fill(P, curr, row, items);
      r.2 >= P.minItems || r.0 == P.lens
    decreases Remaining(curr, P.lens)
  {
    if !(items >= P.minItems || curr == P.lens) {
      var d, curr', row', items' := FillNext(P, curr, row, items);
      FillEnough(P, curr', row', items');
    } else {
      FillDone(P, curr, row, items);
    }
  }

  /** The inner loop's item count is the items of the batches it added. */
  lemma {:induction false} FillItems(P: Loaders, curr: seq<int>, row: seq<int>, items: real)
    requires P.Shaped() && Bounded(curr, P.lens) && |row| == |curr|
    requires curr == P.lens || Positive(P.lens)
    ensures var r := Fill(P, curr, row, items);
      r.2 - items == Items(r.1, P.perBatch) - Items(row, P.perBatch)
    decreases Remaining(curr, P.lens)
  {
    if !(items >= P.minItems || curr == P.lens) {
      var d, curr', row', items' := FillNext(P, curr, row, items);
      FillItems(P, curr', row', items');
      ItemsStep(row, P.perBatch, d);
    } else {
      FillDone(P, curr, row, items);
    }
  }

  lemma FillDone(P: Loaders, curr: seq<int>, row: seq<int>, items: real)
    requires P.Shaped() && Bounded(curr, P.lens) && |row| == |curr|
    requires curr == P.lens || Positive(P.lens)
    requires items >= P.minItems || curr == P.lens
    ensures Fill(P, curr, row, items) == (curr, row, items)
  {
  }

  /** The outer loop: one step per iteration until every loader is finished. */
  function Steps(P: Loaders, curr: seq<int>): (rows: seq<seq<int>>)
    requires P.Shaped() && Bounded(curr, P.lens)
    requires curr == P.lens || P.Schedulable()
    ensures forall k :: 0 <= k < |rows| ==> |rows[k]| == |P.lens|
    decreases Remaining(curr, P.lens)
  {
    if curr == P.lens then []
    else
      var r := Fill(P, curr, Zeros(|curr|), 0.0);
      FillProgress(P, curr, Zeros(|curr|), 0.0);
      RemainingNonNeg(curr, P.lens);
      [r.1] + Steps(P, r.0)
  }

  /** `batch_size * point_size * world_size`, per loader. */
  function PerBatch(batchSize: seq<int>, pointSize: seq<real>, worldSize: int): (per: seq<real>)
    requires |batchSize| == |pointSize|
    ensures |per| == |batchSize|
    ensures forall i :: 0 <= i < |per| ==> per[i] == batchSize[i] as real * pointSize[i] * worldSize as real
  {
    seq(|batchSize|, i requires 0 <= i < |batchSize| => batchSize[i] as real * pointSize[i] * worldSize as real)
  }

  /** `compute_multibatches_dataloader`: the stacked steps; with nothing to
      schedule `numpy.stack` of no rows is a ValueError. */
  function Multibatches(lens: seq<int>, batchSize: seq<int>, pointSize: seq<real>, minItems: int, worldSize: int): (r: Result<seq<seq<int>>>)
    requires |batchSize| == |pointSize| == |lens|
    requires Zeros(|lens|) == lens || (minItems > 0 && Positive(lens))
  {
    var per := PerBatch(batchSize, pointSize, worldSize);
    var rows := Steps(Loaders(lens, per, minItems as real), Zeros(|lens|));
    if rows == [] then Err(ValueError) else Ok(rows)
  }

  /** Column `j` of a list of rows. */
  function Column(rows: seq<seq<int>>, j: nat): (c: seq<int>)
    requires forall k :: 0 <= k < |rows| ==> j < |rows[k]|
    ensures |c| == |rows|
  {
    seq(|rows|, k requires 0 <= k < |rows| => rows[k][j])
  }

  lemma ColumnCons(row: seq<int>, rows: seq<seq<int>>, j: nat)
    requires j < |row| && forall k :: 0 <= k < |rows| ==> j < |rows[k]|
    ensures Column([row] + rows, j) == [row[j]] + Column(rows, j)
  {
  }

  /** One iteration of the inner loop. */
  lemma FillUnfold(P: Loaders, curr: seq<int>, row: seq<int>, items: real, d: nat)
    requires P.Shaped() && Bounded(curr, P.lens) && |row| == |curr| && Positive(P.lens)
    requires items < P.minItems && curr != P.lens && d == Pick(curr, P.lens)
    ensures Bounded(curr[d := curr[d] + 1], P.lens)
    ensures Fill(P, curr, row, items) == Fill(P, curr[d := curr[d] + 1], row[d := row[d] + 1], items + P.perBatch[d])
  {
    FillTermination(P, curr, d);
  }

  /** A batch from the picked loader brings every loader no further than its length. */
  lemma FillTermination(P: Loaders, curr: seq<int>, d: nat)
    requires Bounded(curr, P.lens) && |P.lens| >= 1 && Positive(P.lens) && curr != P.lens && d == Pick(curr, P.lens)
    ensures Bounded(curr[d := curr[d] + 1], P.lens)
    ensures 0 <= Remaining(curr[d := curr[d] + 1], P.lens) < Remaining(curr, P.lens)
  {
    PickUnfinished(curr, P.lens);
    SumUpdate(curr, d, 1);
    RemainingNonNeg(curr[d := curr[d] + 1], P.lens);
  }

  /** One iteration of the outer loop. */
  lemma StepsUnfold(P: Loaders, curr: seq<int>)
    requires P.Shaped() && Bounded(curr, P.lens) && P.Schedulable() && curr != P.lens
    ensures var r := Fill(P, curr, Zeros(|curr|), 0.0);
      Bounded(r.0, P.lens) && Remaining(r.0, P.lens) < Remaining(curr, P.lens) &&
      Steps(P, curr) == [r.1] + Steps(P, r.0)
  {
    FillProgress(P, curr, Zeros(|curr|), 0.0);
  }

  /** Every loader gets exactly its remaining batches: column sums are the
      loader lengths less the progress already made. */
  lemma {:induction false} StepsColumns(P: Loaders, curr: seq<int>, j: nat)
    requires P.Shaped() && Bounded(curr, P.lens) && (curr == P.lens || P.Schedulable())
    requires j < |P.lens|
    ensures Sum(Column(Steps(P, curr), j)) == P.lens[j] - curr[j]
    decreases Remaining(curr, P.lens)
  {
    if curr != P.lens {
      RemainingNonNeg(curr, P.lens);
      var r := Fill(P, curr, Zeros(|curr|), 0.0);
      FillProgress(P, curr, Zeros(|curr|), 0.0);
      FillColumns(P, curr, Zeros(|curr|), 0.0);
      var rest := Steps(P, r.0);
      StepsColumns(P, r.0, j);
      ColumnCons(r.1, rest, j);
      SumCons(r.1[j], Column(rest, j));
    }
  }

  /** Every step but the last holds at least `minItems` items. */
  lemma {:induction false} StepsMinItems(P: Loaders, curr: seq<int>, k: nat)
    requires P.Shaped() && Bounded(curr, P.lens) && (curr == P.lens || P.Schedulable())
    requires k + 1 < |Steps(P, curr)|
    ensures Items(Steps(P, curr)[k], P.perBatch) >= P.minItems
    decreases Remaining(curr, P.lens)
  {
    RemainingNonNeg(curr, P.lens);
    var r := Fill(P, curr, Zeros(|curr|), 0.0);
    FillProgress(P, curr, Zeros(|curr|), 0.0);
    var rest := Steps(P, r.0);
    assert Steps(P, curr) == [r.1] + rest;
    if k == 0 {
      FillEnough(P, curr, Zeros(|curr|), 0.0);
      FillItems(P, curr, Zeros(|curr|), 0.0);
      ItemsZeros(P.perBatch);
      assert r.0 != P.lens;
    } else {
      StepsMinItems(P, r.0, k - 1);
    }
  }

  /** The dataloader schedule: every loader's column sums to its length and
      every step but the last holds at least `minItems` items. */
  lemma MultibatchesSpec(lens: seq<int>, batchSize: seq<int>, pointSize: seq<real>, minItems: int, worldSize: int)
    requires |batchSize| == |pointSize| == |lens|
    requires Zeros(|lens|) == lens || (minItems > 0 && Positive(lens))
    ensures var per := PerBatch(batchSize, pointSize, worldSize);
      match Multibatches(lens, batchSize, pointSize, minItems, worldSize)
      case Err(e) => e == ValueError && lens == Zeros(|lens|)
      case Ok(rows) =>
        (forall k :: 0 <= k < |rows| ==> |rows[k]| == |lens|) &&
        (forall j :: 0 <= j < |lens| ==> Sum(Column(rows, j)) == lens[j]) &&
        (forall k :: 0 <= k < |rows| - 1 ==> Items(rows[k], per) >= minItems as real)
  {
    var per := PerBatch(batchSize, pointSize, worldSize);
    var P := Loaders(lens, per, minItems as real);
    var z := Zeros(|lens|);
    var rows := Steps(P, z);
    forall j | 0 <= j < |lens| ensures Sum(Column(rows, j)) == lens[j] {
      StepsColumns(P, z, j);
    }
    forall k | 0 <= k < |rows| - 1 ensures Items(rows[k], per) >= minItems as real {
      StepsMinItems(P, z, k);
    }
  }

  lemma MultibatchesUnfold(lens: seq<int>, batchSize: seq<int>, pointSize: seq<real>, minItems: int, worldSize: int, rows: seq<seq<int>>)
    requires |batchSize| == |pointSize| == |lens|
    requires Zeros(|lens|) == lens || (minItems > 0 && Positive(lens))
    requires rows == Steps(Loaders(lens, PerBatch(batchSize, pointSize, worldSize), minItems as real), Zeros(|lens|))
    ensures Multibatches(lens, batchSize, pointSize, minItems, worldSize) == if rows == [] then Err(ValueError) else Ok(rows)
  {
  }

  /** `compute_multibatches_dataloader`: the two nested `while` loops. */
  method ComputeMultibatchesDataloader(lens: seq<int>, batchSize: seq<int>, pointSize: seq<real>, minItems: int, worldSize: int)
    returns (r: Result<seq<seq<int>>>)
    requires |batchSize| == |pointSize| == |lens|
    requires Zeros(|lens|) == lens || (minItems > 0 && Positive(lens))
    ensures r == Multibatches(lens, batchSize, pointSize, minItems, worldSize)
  {
    var n := |lens|;
    var per := PerBatch(batchSize, pointSize, worldSize);
    var P := Loaders(lens, per, minItems as real);
    var curr := Zeros(n);
    var rows: seq<seq<int>> := [];
    while curr != lens
      invariant Bounded(curr, lens) && (curr == lens || P.Schedulable())
      invariant rows + Steps(P, curr) == Steps(P, Zeros(n))
      decreases Remaining(curr, lens)
    {
      RemainingNonNeg(curr, lens);
      StepsUnfold(P, curr);
      var row, items;
      curr, row, items := FillStep(P, curr);
      rows := rows + [row];
    }
    assert Steps(P, curr) == [];
    MultibatchesUnfold(lens, batchSize, pointSize, minItems, worldSize, rows);
    if rows == [] {
      return Err(ValueError);
    }
    return Ok(rows);
  }

  /** The inner `while` loop of `compute_multibatches_dataloader`. */
  method FillStep(P: Loaders, start: seq<int>) returns (curr: seq<int>, row: seq<int>, items: real)
    requires P.Shaped() && Bounded(start, P.lens) && P.Schedulable()
    ensures (curr, row, items) == Fill(P, start, Zeros(|start|), 0.0)
  {
    curr, row, items := start, Zeros(|start|), 0.0;
    ghost var target := Fill(P, curr, row, items);
    while items < P.minItems && curr != P.lens
      invariant Bounded(curr, P.lens) && |row| == |curr|
      invariant Fill(P, curr, row, items) == target
      decreases Remaining(curr, P.lens)
    {
      RemainingNonNeg(curr, P.lens);
      var d := Pick(curr, P.lens);
      var curr', row', items' := curr[d := curr[d] + 1], row[d := row[d] + 1], items + P.perBatch[d];
      FillUnfold(P, curr, row, items, d);
      FillTermination(P, curr, d);
      curr, row, items := curr', row', items';
    }
    FillDone(P, curr, row, items);
  }

  // ---------------------------------------------------------------------
  // The dataset variant: progress counts data points.

  /** The inputs of `compute_multibatches_dataset`: lengths in points, the
      points of one batch (`batch_size * world_size`), the items per point
      and the items a step needs. */
  datatype Datasets = Datasets(lens: seq<int>, batch: seq<int>, pointSize: seq<real>, minItems: int)
  {
    predicate Shaped()
    {
      |batch| == |lens| && |pointSize| == |lens|
    }

    /** Every dataset has a point and every batch takes at least one. */
    predicate Progresses()
    {
      Positive(lens) && forall i :: 0 <= i < |batch| ==> batch[i] >= 1
    }

    /** Moreover a step needs at least one item. */
    predicate Schedulable()
    {
      minItems > 0 && Progresses()
    }
  }

  /** `batch_points = min(batch_size * world_size, len - curr)`. */
  function Points(D: Datasets, curr: seq<int>, d: nat): int
    requires D.Shaped() && |curr| == |D.lens| && d < |curr|
  {
    if D.batch[d] <= D.lens[d] - curr[d] then D.batch[d] else D.lens[d] - curr[d]
  }

  /** `batch_items = round(batch_points * point_size)`. */
  function PointItems(D: Datasets, points: int, d: nat): int
    requires D.Shaped() && d < |D.lens|
  {
    RoundHalfEven(points as real * D.pointSize[d])
  }

  /** The inner loop AS WRITTEN: progress grows by `batch_items`, the
      items, not by the points taken. `fuel` bounds the iterations of both
      loops together; running out is `OutOfFuel`. The result holds the
      progress, the step row, the items and the fuel left. */
  function DsFill(D: Datasets, curr: seq<int>, row: seq<int>, items: int, fuel: nat): (r: Result<(seq<int>, seq<int>, int, nat)>)
    requires D.Shaped() && |curr| == |D.lens| && |row| == |curr|
    requires curr == D.lens || Positive(D.lens)
    decreases fuel
  {
    if items >= D.minItems || curr == D.lens then Ok((curr, row, items, fuel))
    else if fuel == 0 then Err(OutOfFuel)
    else
      var d := Pick(curr, D.lens);
      var it := PointItems(D, Points(D, curr, d), d);
      DsFill(D, curr[d := curr[d] + it], row[d := row[d] + 1], items + it, fuel - 1)
  }

  /** The inner loop as written keeps the shape of the progress and the row,
      and uses no more fuel than it is given. */
  lemma {:induction false} DsFillShape(D: Datasets, curr: seq<int>, row: seq<int>, items: int, fuel: nat)
    requires D.Shaped() && |curr| == |D.lens| && |row| == |curr|
    requires curr == D.lens || Positive(D.lens)
    ensures var r := DsFill(D, curr, row, items, fuel);
      r.Ok? ==> |r.value.0| == |curr| && |r.value.1| == |row| && r.value.3 <= fuel
    decreases fuel
  {
    if !(items >= D.minItems || curr == D.lens) && fuel > 0 {
      var d := Pick(curr, D.lens);
      var it := PointItems(D, Points(D, curr, d), d);
      DsFillShape(D, curr[d := curr[d] + it], row[d := row[d] + 1], items + it, fuel - 1);
    }
  }

  /** The outer loop as written, with the same fuel. */
  function DsSteps(D: Datasets, curr: seq<int>, fuel: nat): (r: Result<seq<seq<int>>>)
    requires D.Shaped() && |curr| == |D.lens|
    requires curr == D.lens || Positive(D.lens)
    decreases fuel
  {
    if curr == D.lens then Ok([])
    else if fuel == 0 then Err(OutOfFuel)
    else
      match DsFill(D, curr, Zeros(|curr|), 0, fuel - 1)
      case Err(e) => Err(e)
      case Ok((c, row, _, f)) =>
        DsFillShape(D, curr, Zeros(|curr|), 0, fuel - 1);
        match DsSteps(D, c, f)
        case Err(e) => Err(e)
        case Ok(rest) => Ok([row] + rest)
  }

  /** `compute_multibatches_dataset` as written, within `fuel` loop iterations. */
  function MultibatchesDataset(lens: seq<int>, batchSize: seq<int>, pointSize: seq<real>, minItems: int, worldSize: int, fuel: nat): (r: Result<seq<seq<int>>>)
    requires |batchSize| == |pointSize| == |lens|
    requires Zeros(|lens|) == lens || Positive(lens)
  {
    var D := Datasets(lens, seq(|lens|, i requires 0 <= i < |lens| => batchSize[i] * worldSize), pointSize, minItems);
    match DsSteps(D, Zeros(|lens|), fuel)
    case Err(e) => Err(e)
    case Ok(rows) => if rows == [] then Err(ValueError) else Ok(rows)
  }

  /** One dataset of one point read in batches of one point that count two
      items each: the first batch moves the progress to 2, past the length
      1, and from then on the inner loop alternates between progress 2 and
      0 without ever reaching 1, so no amount of fuel suffices. */
  lemma DatasetOvershoots(fuel: nat)
    ensures MultibatchesDataset([1], [1], [2.0], 1, 1, fuel) == Err(OutOfFuel)
  {
    var D := Datasets([1], [1], [2.0], 1);
    assert seq(1, i requires 0 <= i < 1 => [1][i] * 1) == [1];
    RoundOfInt(2);
    RoundOfInt(-2);
    assert PointItems(D, 1, 0) == 2;
    assert PointItems(D, -1, 0) == -2;
    assert Zeros(1) == [0];
    assert Pick([0], [1]) == 0;
    assert Points(D, [0], 0) == 1;
    assert [0][0 := 0 + 2] == [2] && [0][0 := 0 + 1] == [1];
    if fuel >= 2 {
      assert DsFill(D, [0], [0], 0, fuel - 1) == DsFill(D, [2], [1], 2, fuel - 2);
      assert DsFill(D, [2], [1], 2, fuel - 2) == Ok(([2], [1], 2, fuel - 2));
      OvershootCycle(D, fuel - 2);
      assert DsSteps(D, [0], fuel) == Err(OutOfFuel);
    }
  }

  /** The two states of the endless inner loop of `DatasetOvershoots`. */
  lemma {:induction false} OvershootCycle(D: Datasets, fuel: nat)
    requires D == Datasets([1], [1], [2.0], 1)
    requires PointItems(D, 1, 0) == 2 && PointItems(D, -1, 0) == -2
    ensures DsSteps(D, [2], fuel) == Err(OutOfFuel)
    ensures forall k: int :: DsFill(D, [2], [k], 0, fuel) == Err(OutOfFuel)
    ensures forall k: int :: DsFill(D, [0], [k], -2, fuel) == Err(OutOfFuel)
    decreases fuel
  {
    if fuel > 0 {
      OvershootCycle(D, fuel - 1);
      forall k: int ensures DsFill(D, [2], [k], 0, fuel) == Err(OutOfFuel) {
        assert Pick([2], [1]) == 0;
        assert Points(D, [2], 0) == -1;
        assert [2][0 := 2 + -2] == [0] && [k][0 := k + 1] == [k + 1];
        assert DsFill(D, [2], [k], 0, fuel) == DsFill(D, [0], [k + 1], -2, fuel - 1);
      }
      forall k: int ensures DsFill(D, [0], [k], -2, fuel) == Err(OutOfFuel) {
        assert Pick([0], [1]) == 0;
        assert Points(D, [0], 0) == 1;
        assert [0][0 := 0 + 2] == [2] && [k][0 := k + 1] == [k + 1];
        assert DsFill(D, [0], [k], -2, fuel) == DsFill(D, [2], [k + 1], 0, fuel - 1);
      }
      assert DsFill(D, [2], Zeros(1), 0, fuel - 1) == Err(OutOfFuel) by {
        assert Zeros(1) == [0];
      }
    }
  }

  /** `rows` before the steps of `r`, keeping an error. */
  function Prepend(rows: seq<seq<int>>, r: Result<seq<seq<int>>>): Result<seq<seq<int>>>
  {
    match r
    case Err(e) => Err(e)
    case Ok(rest) => Ok(rows + rest)
  }

  lemma DsFillUnfold(D: Datasets, curr: seq<int>, row: seq<int>, items: int, fuel: nat, d: nat, it: int)
    requires D.Shaped() && |curr| == |D.lens| && |row| == |curr| && Positive(D.lens)
    requires items < D.minItems && curr != D.lens && fuel > 0 && d == Pick(curr, D.lens)
    requires it == PointItems(D, Points(D, curr, d), d)
    ensures DsFill(D, curr, row, items, fuel) == DsFill(D, curr[d := curr[d] + it], row[d := row[d] + 1], items + it, fuel - 1)
  {
  }

  lemma DsFillDone(D: Datasets, curr: seq<int>, row: seq<int>, items: int, fuel: nat)
    requires D.Shaped() && |curr| == |D.lens| && |row| == |curr| && (curr == D.lens || Positive(D.lens))
    requires items >= D.minItems || curr == D.lens
    ensures DsFill(D, curr, row, items, fuel) == Ok((curr, row, items, fuel))
  {
  }

  lemma DsStepsUnfold(D: Datasets, curr: seq<int>, fuel: nat)
    requires D.Shaped() && |curr| == |D.lens| && Positive(D.lens) && curr != D.lens && fuel > 0
    ensures match DsFill(D, curr, Zeros(|curr|), 0, fuel - 1)
      case Err(e) => DsSteps(D, curr, fuel) == Err(e)
      case Ok((c, row, _, f)) =>
        |c| == |curr| && |row| == |curr| && f < fuel && DsSteps(D, curr, fuel) == Prepend([row], DsSteps(D, c, f))
  {
    DsFillShape(D, curr, Zeros(|curr|), 0, fuel - 1);
  }

  /** The inner `while` loop of `compute_multibatches_dataset`, as written. */
  method DsFillStep(D: Datasets, start: seq<int>, fuel: nat) returns (r: Result<(seq<int>, seq<int>, int, nat)>)
    requires D.Shaped() && |start| == |D.lens| && Positive(D.lens)
    ensures r == DsFill(D, start, Zeros(|start|), 0, fuel)
  {
    var curr, row, items, left := start, Zeros(|start|), 0, fuel;
    ghost var target := DsFill(D, curr, row, items, left);
    while items < D.minItems && curr != D.lens
      invariant |curr| == |D.lens| && |row| == |curr|
      invariant DsFill(D, curr, row, items, left) == target
      decreases left
    {
      if left == 0 {
        return Err(OutOfFuel);
      }
      var d := Pick(curr, D.lens);
      var points := Points(D, curr, d);
      var it := PointItems(D, points, d);
      var curr', row', items' := curr[d := curr[d] + it], row[d := row[d] + 1], items + it;
      assert DsFill(D, curr', row', items', left - 1) == target by {
        DsFillUnfold(D, curr, row, items, left, d, it);
      }
      curr, row, items, left := curr', row', items', left - 1;
    }
    DsFillDone(D, curr, row, items, left);
    return Ok((curr, row, items, left));
  }

  /** `compute_multibatches_dataset`, as written, within `fuel` iterations. */
  method ComputeMultibatchesDataset(lens: seq<int>, batchSize: seq<int>, pointSize: seq<real>, minItems: int, worldSize: int, fuel: nat)
    returns (r: Result<seq<seq<int>>>)
    requires |batchSize| == |pointSize| == |lens|
    requires Zeros(|lens|) == lens || Positive(lens)
    ensures r == MultibatchesDataset(lens, batchSize, pointSize, minItems, worldSize, fuel)
  {
    var n := |lens|;
    var D := Datasets(lens, seq(n, i requires 0 <= i < n => batchSize[i] * worldSize), pointSize, minItems);
    assert D == Datasets(lens, seq(|lens|, i requires 0 <= i < |lens| => batchSize[i] * worldSize), pointSize, minItems);
    var curr := Zeros(n);
    var rows: seq<seq<int>> := [];
    var left := fuel;
    ghost var target := DsSteps(D, curr, left);
    PrependNothing(target);
    while curr != lens
      invariant |curr| == n && (curr == lens || Positive(lens))
      invariant Prepend(rows, DsSteps(D, curr, left)) == target
      decreases left
    {
      if left == 0 {
        return Err(OutOfFuel);
      }
      DsStepsUnfold(D, curr, left);
      var step := DsFillStep(D, curr, left - 1);
      if step.Err? {
        return Err(step.error);
      }
      var (c, row, _, f) := step.value;
      PrependAppend(rows, row, DsSteps(D, c, f));
      curr, left := c, f;
      rows := rows + [row];
    }
    assert DsSteps(D, curr, left) == Ok([]);
    assert rows + [] == rows;
    DatasetUnfold(lens, batchSize, pointSize, minItems, worldSize, fuel);
    if rows == [] {
      return Err(ValueError);
    }
    return Ok(rows);
  }

  lemma PrependAppend(rows: seq<seq<int>>, row: seq<int>, r: Result<seq<seq<int>>>)
    ensures Prepend(rows + [row], r) == Prepend(rows, Prepend([row], r))
  {
    if r.Ok? {
      assert rows + [row] + r.value == rows + ([row] + r.value);
    }
  }

  lemma PrependNothing(r: Result<seq<seq<int>>>)
    ensures Prepend([], r) == r
  {
    if r.Ok? {
      assert [] + r.value == r.value;
    }
  }

  lemma DatasetUnfold(lens: seq<int>, batchSize: seq<int>, pointSize: seq<real>, minItems: int, worldSize: int, fuel: nat)
    requires |batchSize| == |pointSize| == |lens|
    requires Zeros(|lens|) == lens || Positive(lens)
    ensures var D := Datasets(lens, seq(|lens|, i requires 0 <= i < |lens| => batchSize[i] * worldSize), pointSize, minItems);
      MultibatchesDataset(lens, batchSize, pointSize, minItems, worldSize, fuel) ==
        match DsSteps(D, Zeros(|lens|), fuel)
        case Err(e) => Err(e)
        case Ok(rows) => if rows == [] then Err(ValueError) else Ok(rows)
  {
  }

  // ---------------------------------------------------------------------
  // The dataset variant as evidently intended: progress grows by the
  // points a batch takes, `batch_points`, and the item count by its items.

  /** Batches still to come from dataset `j`: `ceil((len - curr) / batch)`. */
  function BatchesLeft(D: Datasets, curr: seq<int>, j: nat): int
    requires D.Shaped() && |curr| == |D.lens| && j < |curr| && D.batch[j] >= 1
  {
    (D.lens[j] - curr[j] + D.batch[j] - 1) / D.batch[j]
  }

  /** The corrected inner loop. */
  function FixFill(D: Datasets, curr: seq<int>, row: seq<int>, items: int): (r: (seq<int>, seq<int>, int))
    requires D.Shaped() && Bounded(curr, D.lens) && |row| == |curr|
    requires curr == D.lens || D.Progresses()
    ensures |r.0| == |curr| && |r.1| == |row|
    decreases Remaining(curr, D.lens)
  {
    if items >= D.minItems || curr == D.lens then (curr, row, items)
    else
      var d := Pick(curr, D.lens);
      var p := Points(D, curr, d);
      FixTermination(D, curr, d, p);
      FixFill(D, curr[d := curr[d] + p], row[d := row[d] + 1], items + PointItems(D, p, d))
  }

  /** A batch of the picked dataset takes one point or more and none past its length. */
  lemma FixTermination(D: Datasets, curr: seq<int>, d: nat, p: int)
    requires D.Shaped() && Bounded(curr, D.lens) && D.Progresses() && curr != D.lens
    requires |D.lens| >= 1 && d == Pick(curr, D.lens) && p == Points(D, curr, d)
    ensures 1 <= p && Bounded(curr[d := curr[d] + p], D.lens)
    ensures 0 <= Remaining(curr[d := curr[d] + p], D.lens) < Remaining(curr, D.lens)
  {
    PickUnfinished(curr, D.lens);
    SumUpdate(curr, d, p);
    RemainingNonNeg(curr[d := curr[d] + p], D.lens);
  }

  /** One iteration of the corrected inner loop; `it` is the items of its batch. */
  lemma FixFillUnfold(D: Datasets, curr: seq<int>, row: seq<int>, items: int, d: nat, p: int) returns (it: int)
    requires D.Shaped() && Bounded(curr, D.lens) && |row| == |curr| && D.Progresses()
    requires items < D.minItems && curr != D.lens && d == Pick(curr, D.lens) && p == Points(D, curr, d)
    ensures Bounded(curr[d := curr[d] + p], D.lens)
    ensures FixFill(D, curr, row, items) == FixFill(D, curr[d := curr[d] + p], row[d := row[d] + 1], items + it)
  {
    it := PointItems(D, p, d);
    assert Bounded(curr[d := curr[d] + p], D.lens) by {
      FixTermination(D, curr, d, p);
    }
  }

  /** One iteration of the corrected inner loop, from dataset `d`, with the
      progress it makes. */
  lemma FixFillNext(D: Datasets, curr: seq<int>, row: seq<int>, items: int)
    returns (d: nat, p: int, curr': seq<int>, row': seq<int>, items': int)
    requires D.Shaped() && Bounded(curr, D.lens) && |row| == |curr| && D.Progresses()
    requires items < D.minItems && curr != D.lens
    ensures d == Pick(curr, D.lens) && p == Points(D, curr, d) && curr[d] < D.lens[d]
    ensures curr' == curr[d := curr[d] + p] && row' == row[d := row[d] + 1]
    ensures Bounded(curr', D.lens) && 0 <= Remaining(curr', D.lens) < Remaining(curr, D.lens)
    ensures FixFill(D, curr, row, items) == FixFill(D, curr', row', items')
  {
    d := Pick(curr, D.lens);
    p := Points(D, curr, d);
    assert curr[d] < D.lens[d] by {
      PickUnfinished(curr, D.lens);
    }
    curr', row' := curr[d := curr[d] + p], row[d := row[d] + 1];
    var it := FixFillUnfold(D, curr, row, items, d, p);
    items' := items + it;
    assert 0 <= Remaining(curr', D.lens) < Remaining(curr, D.lens) by {
      FixTermination(D, curr, d, p);
    }
  }

  /** The corrected inner loop moves no dataset past its length, and makes
      progress whenever it takes a batch. */
  lemma {:induction false} FixFillProgress(D: Datasets, curr: seq<int>, row: seq<int>, items: int)
    requires D.Shaped() && Bounded(curr, D.lens) && |row| == |curr|
    requires curr == D.lens || D.Progresses()
    ensures var r := FixFill(D, curr, row, items);
      Bounded(r.0, D.lens) && Remaining(r.0, D.lens) <= Remaining(curr, D.lens) &&
      (items < D.minItems && curr != D.lens ==> Remaining(r.0, D.lens) < Remaining(curr, D.lens))
    decreases Remaining(curr, D.lens)
  {
    if !(items >= D.minItems || curr == D.lens) {
      var d, p, curr', row', items' := FixFillNext(D, curr, row, items);
      FixFillProgress(D, curr', row', items');
    } else {
      FixFillDone(D, curr, row, items);
    }
  }

  lemma FixFillDone(D: Datasets, curr: seq<int>, row: seq<int>, items: int)
    requires D.Shaped() && Bounded(curr, D.lens) && |row| == |curr| && (curr == D.lens || D.Progresses())
    requires items >= D.minItems || curr == D.lens
    ensures FixFill(D, curr, row, items) == (curr, row, items)
  {
  }

  /** Taking `min(batch, len - curr)` points leaves one batch fewer to come. */
  lemma BatchesLeftStep(l: int, c: int, b: int, p: int)
    requires b >= 1 && 0 <= c < l && p == (if b <= l - c then b else l - c)
    ensures (l - (c + p) + b - 1) / b == (l - c + b - 1) / b - 1
  {
    var x := l - c - p + b - 1;
    if p == b {
      assert l - c + b - 1 == x + b;
      DivShift(x, b);
    } else {
      assert 0 <= x < b;
      assert b <= l - c + b - 1 < 2 * b;
      DivOne(l - c + b - 1, b);
    }
  }

  lemma DivOne(y: int, b: int)
    requires b >= 1 && b <= y < 2 * b
    ensures y / b == 1
  {
    assert y == 1 * b + (y - b);
  }

  /** The corrected inner loop gives every dataset as many batches as its
      progress owes: a batch from `d` leaves one batch fewer to come. */
  lemma {:induction false} FixColumns(D: Datasets, curr: seq<int>, row: seq<int>, items: int)
    requires D.Shaped() && Bounded(curr, D.lens) && |row| == |curr|
    requires curr == D.lens || D.Progresses()
    requires forall i :: 0 <= i < |D.batch| ==> D.batch[i] >= 1
    ensures var r := FixFill(D, curr, row, items);
      forall j :: 0 <= j < |row| ==> r.1[j] - row[j] == BatchesLeft(D, curr, j) - BatchesLeft(D, r.0, j)
    decreases Remaining(curr, D.lens)
  {
    if !(items >= D.minItems || curr == D.lens) {
      var d, p, curr', row', items' := FixFillNext(D, curr, row, items);
      FixColumns(D, curr', row', items');
      BatchesLeftAfterBatch(D, curr, d, p);
    } else {
      FixFillDone(D, curr, row, items);
    }
  }

  /** A batch from an unfinished dataset `d` leaves it one batch fewer to
      come and the others as many as before. */
  lemma BatchesLeftAfterBatch(D: Datasets, curr: seq<int>, d: nat, p: int)
    requires D.Shaped() && |curr| == |D.lens| && D.Progresses()
    requires d < |curr| && 0 <= curr[d] < D.lens[d] && p == Points(D, curr, d)
    ensures forall j :: 0 <= j < |curr| ==>
      BatchesLeft(D, curr[d := curr[d] + p], j) == BatchesLeft(D, curr, j) - (if j == d then 1 else 0)
  {
    var curr' := curr[d := curr[d] + p];
    assert BatchesLeft(D, curr', d) == BatchesLeft(D, curr, d) - 1 by {
      BatchesLeftStep(D.lens[d], curr[d], D.batch[d], p);
    }
    forall j | 0 <= j < |curr| && j != d
      ensures BatchesLeft(D, curr', j) == BatchesLeft(D, curr, j)
    {
      assert curr'[j] == curr[j];
    }
  }

  /** The corrected inner loop stops with at least `minItems` items unless
      every dataset is finished. */
  lemma {:induction false} FixEnough(D: Datasets, curr: seq<int>, row: seq<int>, items: int)
    requires D.Shaped() && Bounded(curr, D.lens) && |row| == |curr|
    requires curr == D.lens || D.Progresses()
    ensures var r := FixFill(D, curr, row, items);
      r.2 >= D.minItems || r.0 == D.lens
    decreases Remaining(curr, D.lens)
  {
    if !(items >= D.minItems || curr == D.lens) {
      var d, p, curr', row', items' := FixFillNext(D, curr, row, items);
      FixEnough(D, curr', row', items');
    } else {
      FixFillDone(D, curr, row, items);
    }
  }

  /** The corrected outer loop. */
  function FixSteps(D: Datasets, curr: seq<int>): (rows: seq<seq<int>>)
    requires D.Shaped() && Bounded(curr, D.lens)
    requires curr == D.lens || D.Schedulable()
    ensures forall k :: 0 <= k < |rows| ==> |rows[k]| == |D.lens|
    decreases Remaining(curr, D.lens)
  {
    if curr == D.lens then []
    else
      var r := FixFill(D, curr, Zeros(|curr|), 0);
      FixFillProgress(D, curr, Zeros(|curr|), 0);
      RemainingNonNeg(curr, D.lens);
      [r.1] + FixSteps(D, r.0)
  }

  /** Every dataset is read in exactly `ceil((len - curr) / batch)` batches. */
  lemma {:induction false} FixStepsColumns(D: Datasets, curr: seq<int>, j: nat)
    requires D.Shaped() && Bounded(curr, D.lens) && (curr == D.lens || D.Schedulable())
    requires forall i :: 0 <= i < |D.batch| ==> D.batch[i] >= 1
    requires j < |D.lens|
    ensures Sum(Column(FixSteps(D, curr), j)) == BatchesLeft(D, curr, j)
    decreases Remaining(curr, D.lens)
  {
    if curr != D.lens {
      RemainingNonNeg(curr, D.lens);
      var r := FixFill(D, curr, Zeros(|curr|), 0);
      FixFillProgress(D, curr, Zeros(|curr|), 0);
      FixColumns(D, curr, Zeros(|curr|), 0);
      var rest := FixSteps(D, r.0);
      FixStepsColumns(D, r.0, j);
      ColumnCons(r.1, rest, j);
      SumCons(r.1[j], Column(rest, j));
    } else {
      assert 0 <= D.batch[j] - 1 < D.batch[j];
    }
  }

  /** `compute_multibatches_dataset` with the progress counted in points. */
  function FixedMultibatchesDataset(lens: seq<int>, batchSize: seq<int>, pointSize: seq<real>, minItems: int, worldSize: int): (r: Result<seq<seq<int>>>)
    requires |batchSize| == |pointSize| == |lens|
    requires forall i :: 0 <= i < |lens| ==> batchSize[i] * worldSize >= 1
    requires Zeros(|lens|) == lens || (minItems > 0 && Positive(lens))
  {
    var D := Datasets(lens, seq(|lens|, i requires 0 <= i < |lens| => batchSize[i] * worldSize), pointSize, minItems);
    ZerosBounded(lens);
    var rows := FixSteps(D, Zeros(|lens|));
    if rows == [] then Err(ValueError) else Ok(rows)
  }

  lemma ZerosBounded(lens: seq<int>)
    requires Zeros(|lens|) == lens || Positive(lens)
    ensures Bounded(Zeros(|lens|), lens)
  {
  }

  /** The corrected schedule reads every dataset in `ceil(len / (batch_size
      * world_size))` batches, whatever the point sizes. */
  lemma FixedMultibatchesSpec(lens: seq<int>, batchSize: seq<int>, pointSize: seq<real>, minItems: int, worldSize: int)
    requires |batchSize| == |pointSize| == |lens|
    requires forall i :: 0 <= i < |lens| ==> batchSize[i] * worldSize >= 1
    requires Zeros(|lens|) == lens || (minItems > 0 && Positive(lens))
    ensures match FixedMultibatchesDataset(lens, batchSize, pointSize, minItems, worldSize)
      case Err(e) => e == ValueError && lens == Zeros(|lens|)
      case Ok(rows) =>
        (forall k :: 0 <= k < |rows| ==> |rows[k]| == |lens|) &&
        (forall j :: 0 <= j < |lens| ==>
          Sum(Column(rows, j)) == (lens[j] + batchSize[j] * worldSize - 1) / (batchSize[j] * worldSize))
  {
    var D := Datasets(lens, seq(|lens|, i requires 0 <= i < |lens| => batchSize[i] * worldSize), pointSize, minItems);
    var z := Zeros(|lens|);
    ZerosBounded(lens);
    var rows := FixSteps(D, z);
    forall j | 0 <= j < |lens|
      ensures Sum(Column(rows, j)) == (lens[j] + batchSize[j] * worldSize - 1) / (batchSize[j] * worldSize)
    {
      FixStepsColumns(D, z, j);
    }
  }

  /** With one item per point the items are the points, so the code as
      written computes the corrected schedule whenever it finishes. */
  lemma {:induction false} AgreeFill(D: Datasets, curr: seq<int>, row: seq<int>, items: int, fuel: nat)
    requires D.Shaped() && Bounded(curr, D.lens) && |row| == |curr|
    requires curr == D.lens || D.Progresses()
    requires forall i :: 0 <= i < |D.pointSize| ==> D.pointSize[i] == 1.0
    ensures Agrees(DsFill(D, curr, row, items, fuel), FixFill(D, curr, row, items))
    decreases fuel
  {
    if items >= D.minItems || curr == D.lens {
      AgreeDone(D, curr, row, items, fuel);
    } else if fuel > 0 {
      var curr', row', items' := UnitStep(D, curr, row, items, fuel);
      AgreeFill(D, curr', row', items', fuel - 1);
    } else {
      DsFillNoFuel(D, curr, row, items);
    }
  }

  lemma AgreeDone(D: Datasets, curr: seq<int>, row: seq<int>, items: int, fuel: nat)
    requires D.Shaped() && Bounded(curr, D.lens) && |row| == |curr|
    requires curr == D.lens || D.Progresses()
    requires items >= D.minItems || curr == D.lens
    ensures Agrees(DsFill(D, curr, row, items, fuel), FixFill(D, curr, row, items))
  {
    FixFillDone(D, curr, row, items);
    DsFillDone(D, curr, row, items, fuel);
  }

  lemma DsFillNoFuel(D: Datasets, curr: seq<int>, row: seq<int>, items: int)
    requires D.Shaped() && |curr| == |D.lens| && |row| == |curr| && (curr == D.lens || Positive(D.lens))
    requires items < D.minItems && curr != D.lens
    ensures DsFill(D, curr, row, items, 0) == Err(OutOfFuel)
  {
  }

  /** A run of the inner loop as written that finishes ends where the corrected one does. */
  predicate Agrees(r: Result<(seq<int>, seq<int>, int, nat)>, f: (seq<int>, seq<int>, int))
  {
    r.Ok? ==> (r.value.0, r.value.1, r.value.2) == f
  }

  /** One iteration of both inner loops when the picked dataset has one item
      per point: they take the same batch. */
  lemma UnitStep(D: Datasets, curr: seq<int>, row: seq<int>, items: int, fuel: nat)
    returns (curr': seq<int>, row': seq<int>, items': int)
    requires D.Shaped() && Bounded(curr, D.lens) && |row| == |curr| && D.Progresses()
    requires items < D.minItems && curr != D.lens && fuel > 0
    requires forall i :: 0 <= i < |D.pointSize| ==> D.pointSize[i] == 1.0
    ensures Bounded(curr', D.lens) && |row'| == |curr'|
    ensures FixFill(D, curr, row, items) == FixFill(D, curr', row', items')
    ensures DsFill(D, curr, row, items, fuel) == DsFill(D, curr', row', items', fuel - 1)
  {
    var d := Pick(curr, D.lens);
    var p := Points(D, curr, d);
    curr', row', items' := curr[d := curr[d] + p], row[d := row[d] + 1], items + p;
    ItemsArePoints(D, p, d);
    assert Bounded(curr', D.lens) && FixFill(D, curr, row, items) == FixFill(D, curr', row', items') by {
      FixUnitStep(D, curr, row, items, d, p);
    }
    assert DsFill(D, curr, row, items, fuel) == DsFill(D, curr', row', items', fuel - 1) by {
      DsFillUnfold(D, curr, row, items, fuel, d, p);
    }
  }

  lemma FixUnitStep(D: Datasets, curr: seq<int>, row: seq<int>, items: int, d: nat, p: int)
    requires D.Shaped() && Bounded(curr, D.lens) && |row| == |curr| && D.Progresses()
    requires items < D.minItems && curr != D.lens
    requires d == Pick(curr, D.lens) && p == Points(D, curr, d) && PointItems(D, p, d) == p
    ensures Bounded(curr[d := curr[d] + p], D.lens)
    ensures FixFill(D, curr, row, items) == FixFill(D, curr[d := curr[d] + p], row[d := row[d] + 1], items + p)
  {
    FixTermination(D, curr, d, p);
  }

  lemma ItemsArePoints(D: Datasets, p: int, d: nat)
    requires D.Shaped() && d < |D.lens| && D.pointSize[d] == 1.0
    ensures PointItems(D, p, d) == p
  {
    RoundOfInt(p);
    assert p as real * D.pointSize[d] == p as real;
  }

  lemma {:induction false} AgreeSteps(D: Datasets, curr: seq<int>, fuel: nat)
    requires D.Shaped() && Bounded(curr, D.lens) && (curr == D.lens || D.Schedulable())
    requires forall i :: 0 <= i < |D.pointSize| ==> D.pointSize[i] == 1.0
    ensures var r := DsSteps(D, curr, fuel);
      r.Ok? ==> r.value == FixSteps(D, curr)
    decreases fuel
  {
    if curr != D.lens && fuel > 0 {
      var ok, c, row, left := AgreeStepsNext(D, curr, fuel);
      if ok {
        AgreeSteps(D, c, left);
      }
    }
  }

  /** One iteration of both outer loops, when the point sizes are 1.0: the
      loop as written either fails or takes the corrected loop's step. */
  lemma AgreeStepsNext(D: Datasets, curr: seq<int>, fuel: nat)
    returns (ok: bool, c: seq<int>, row: seq<int>, left: nat)
    requires D.Shaped() && Bounded(curr, D.lens) && D.Schedulable() && curr != D.lens && fuel > 0
    requires forall i :: 0 <= i < |D.pointSize| ==> D.pointSize[i] == 1.0
    ensures !ok ==> DsSteps(D, curr, fuel).Err?
    ensures ok ==>
      Bounded(c, D.lens) && left < fuel &&
      DsSteps(D, curr, fuel) == Prepend([row], DsSteps(D, c, left)) &&
      FixSteps(D, curr) == [row] + FixSteps(D, c)
  {
    var z := Zeros(|curr|);
    var fc, frow := FixStepsUnfold(D, curr);
    DsStepsUnfold(D, curr, fuel);
    assert Agrees(DsFill(D, curr, z, 0, fuel - 1), FixFill(D, curr, z, 0)) by {
      AgreeFill(D, curr, z, 0, fuel - 1);
    }
    var f := DsFill(D, curr, z, 0, fuel - 1);
    ok := f.Ok?;
    c, row, left := curr, [], 0;
    if ok {
      c, row, left := f.value.0, f.value.1, f.value.3;
      assert c == fc && row == frow;
    }
  }

  /** One iteration of the corrected outer loop. */
  lemma FixStepsUnfold(D: Datasets, curr: seq<int>) returns (c: seq<int>, row: seq<int>)
    requires D.Shaped() && Bounded(curr, D.lens) && D.Schedulable() && curr != D.lens
    ensures c == FixFill(D, curr, Zeros(|curr|), 0).0 && row == FixFill(D, curr, Zeros(|curr|), 0).1
    ensures Bounded(c, D.lens) && FixSteps(D, curr) == [row] + FixSteps(D, c)
  {
    var r := FixFill(D, curr, Zeros(|curr|), 0);
    FixFillProgress(D, curr, Zeros(|curr|), 0);
    c, row := r.0, r.1;
  }

  /** With every point size 1.0, `compute_multibatches_dataset` as written
      returns, whenever it returns, the corrected schedule. */
  lemma AgreeMultibatches(lens: seq<int>, batchSize: seq<int>, pointSize: seq<real>, minItems: int, worldSize: int, fuel: nat)
    requires |batchSize| == |pointSize| == |lens|
    requires forall i :: 0 <= i < |lens| ==> batchSize[i] * worldSize >= 1
    requires Zeros(|lens|) == lens || (minItems > 0 && Positive(lens))
    requires forall i :: 0 <= i < |pointSize| ==> pointSize[i] == 1.0
    ensures var r := MultibatchesDataset(lens, batchSize, pointSize, minItems, worldSize, fuel);
      r.Ok? ==> r == FixedMultibatchesDataset(lens, batchSize, pointSize, minItems, worldSize)
  {
    var D := Datasets(lens, seq(|lens|, i requires 0 <= i < |lens| => batchSize[i] * worldSize), pointSize, minItems);
    ZerosBounded(lens);
    AgreeSteps(D, Zeros(|lens|), fuel);
    DatasetUnfold(lens, batchSize, pointSize, minItems, worldSize, fuel);
  }
}
