/** Run-length encoding of binary masks (module `goripy.mask.rle`).

    A mask is flattened in column-major order; its RLE is the list of run
    lengths of alternating false/true cells, starting with a (possibly
    empty) run of false cells. */
module MaskRle {
  import opened Results
  import opened Seqs
  import opened PyNum
  import opened Grids

  predicate NonNeg(s: seq<int>)
  {
    forall k :: 0 <= k < |s| ==> s[k] >= 0
  }

  /** The reference meaning of a run list: runs of `v`, `!v`, `v`, ...
      of the given lengths, concatenated. */
  function Expand(rle: seq<int>, v: bool): (r: seq<bool>)
    requires NonNeg(rle)
  {
    if rle == [] then [] else Repeat(v, rle[0]) + Expand(rle[1..], !v)
  }

  // ---- the encoder, `mask_to_rle` ----

  /** `numpy.argwhere(numpy.logical_xor(flat[1:], flat[:-1])) + 1`, restricted
      to positions from `i` on: the indices where a new run starts. */
  function Changes(flat: seq<bool>, i: nat): (c: seq<int>)
    requires i >= 1
    ensures forall k :: 0 <= k < |c| ==> i <= c[k] < |flat|
    decreases |flat| - i
  {
    if i >= |flat| then []
    else (if flat[i - 1] != flat[i] then [i] else []) + Changes(flat, i + 1)
  }

  /** `rle[1:] -= rle[:-1]` on `[prev] + c`, without the leading `prev`:
      the adjacent differences of `c`, the first taken against `prev`. */
  function Deltas(prev: int, c: seq<int>): (d: seq<int>)
    ensures |d| == |c|
    decreases |c|
  {
    if c == [] then [] else [c[0] - prev] + Deltas(c[0], c[1..])
  }

  /** `mask_to_rle` on the column-major cells: the run lengths, with a 0
      in front when the first cell is true; an empty mask fails at
      `mask_flat[0]`. */
  function EncodeFlat(flat: seq<bool>): (r: Result<seq<int>>)
    ensures r.Err? <==> |flat| == 0
    ensures r.Err? ==> r.error == IndexError
    ensures r.Ok? ==> |r.value| >= 1
  {
    if |flat| == 0 then Err(IndexError)
    else
      var runs := Deltas(0, Changes(flat, 1) + [|flat|]);
      Ok(if flat[0] then [0] + runs else runs)
  }

  /** `mask_to_rle(mask)`: `ravel(order="F")` is the grid's own cell order. */
  function MaskToRle(mask: Grid<bool>): (r: Result<seq<int>>)
    requires mask.Valid()
    ensures r.Err? <==> mask.h * mask.w == 0
  {
    EncodeFlat(mask.cells)
  }

  predicate Positive(s: seq<int>)
  {
    forall k :: 0 <= k < |s| ==> s[k] >= 1
  }

  /** The runs that start at a run boundary `i` spell out `flat[i..]`,
      are all positive and add up to the remaining length. */
  lemma {:induction false} RunsFrom(flat: seq<bool>, i: nat)
    requires i < |flat|
    ensures var r := Deltas(i, Changes(flat, i + 1) + [|flat|]);
      Positive(r) && Sum(r) == |flat| - i && Expand(r, flat[i]) == flat[i..]
    decreases |flat| - i
  {
    var n := |flat|;
    var r := Deltas(i, Changes(flat, i + 1) + [n]);
    if i + 1 == n {
      assert r == [1];
      assert Sum([1]) == Sum([]) + 1;
      assert flat[i..] == [flat[i]];
      assert Expand([1], flat[i]) == [flat[i]] + Expand([], !flat[i]);
    } else {
      RunsFrom(flat, i + 1);
      assert flat[i..] == [flat[i]] + flat[i + 1..];
      var c := Changes(flat, i + 2) + [n];
      if flat[i] != flat[i + 1] {
        assert Changes(flat, i + 1) + [n] == [i + 1] + c;
        NewRun(Deltas(i + 1, c), flat[i]);
      } else {
        assert Changes(flat, i + 1) == Changes(flat, i + 2);
        LongerRun(i, c, flat[i]);
      }
    }
  }

  /** A run boundary right after position `i`: a run of length 1, then the rest. */
  lemma NewRun(r': seq<int>, v: bool)
    requires Positive(r')
    ensures Positive([1] + r') && Sum([1] + r') == Sum(r') + 1
    ensures Expand([1] + r', v) == [v] + Expand(r', !v)
  {
    SumCons(1, r');
    assert ([1] + r')[1..] == r';
    assert Repeat(v, 1) == [v];
  }

  /** No boundary right after position `i`: the first run is one longer. */
  lemma LongerRun(i: int, c: seq<int>, v: bool)
    requires c != [] && Positive(Deltas(i + 1, c))
    ensures Positive(Deltas(i, c)) && Sum(Deltas(i, c)) == Sum(Deltas(i + 1, c)) + 1
    ensures Expand(Deltas(i, c), v) == [v] + Expand(Deltas(i + 1, c), v)
  {
    var tail := Deltas(c[0], c[1..]);
    assert Deltas(i, c) == [c[0] - i] + tail && Deltas(i + 1, c) == [c[0] - (i + 1)] + tail;
    HeadLonger(c[0] - (i + 1), tail, v);
  }

  /** A first run one longer: one more cell of the first value in front. */
  lemma HeadLonger(x: int, tail: seq<int>, v: bool)
    requires Positive([x] + tail)
    ensures Positive([x + 1] + tail) && Sum([x + 1] + tail) == Sum([x] + tail) + 1
    ensures Expand([x + 1] + tail, v) == [v] + Expand([x] + tail, v)
  {
    var r, r' := [x + 1] + tail, [x] + tail;
    assert r'[0] == x;
    assert forall j :: 1 <= j < |r| ==> r[j] == r'[j];
    SumCons(x + 1, tail);
    SumCons(x, tail);
    assert r[1..] == tail && r'[1..] == tail;
    var e := Expand(tail, !v);
    assert Repeat(v, x + 1) == [v] + Repeat(v, x);
    assert [v] + Repeat(v, x) + e == [v] + (Repeat(v, x) + e);
  }

  /** The encoder's contract: the runs sum to the number of cells, every run
      but a leading 0 is positive, the leading 0 is there exactly when the
      first cell is true, and the alternating runs spell out the cells. */
  lemma EncodeFlatRuns(flat: seq<bool>)
    requires |flat| >= 1
    ensures var r := EncodeFlat(flat).value;
      && NonNeg(r)
      && Sum(r) == |flat|
      && (r[0] == 0 <==> flat[0])
      && (forall k :: (if flat[0] then 1 else 0) <= k < |r| ==> r[k] >= 1)
      && Expand(r, false) == flat
  {
    var runs := Deltas(0, Changes(flat, 1) + [|flat|]);
    RunsFrom(flat, 0);
    assert flat[0..] == flat;
    if flat[0] {
      SumCons(0, runs);
      var r := [0] + runs;
      assert r[1..] == runs;
      assert Expand(r, false) == Repeat(false, 0) + Expand(runs, true);
    }
  }

  // ---- the decoder, `rle_to_mask` ----

  /** `numpy.cumsum(rle)`. */
  function CumSum(rle: seq<int>): (c: seq<int>)
    ensures |c| == |rle|
    ensures forall i :: 0 <= i < |rle| ==> c[i] == Sum(rle[..i + 1])
  {
    seq(|rle|, i requires 0 <= i < |rle| => Sum(rle[..i + 1]))
  }

  /** `s` with the positions in `[lo, hi)` set to `v`. */
  function SetRange<T>(s: seq<T>, lo: nat, hi: nat, v: T): (r: seq<T>)
    ensures |r| == |s|
    ensures forall p :: 0 <= p < |s| ==> r[p] == if lo <= p < hi then v else s[p]
  {
    seq(|s|, p requires 0 <= p < |s| => if lo <= p < hi then v else s[p])
  }

  /** The decoder's buffer after its first `k` pairs, `zip(cum[::2], cum[1::2])`:
      an all-false buffer of `n` cells in which each slice
      `mask_flat[cum[2m]:cum[2m+1]]`, `m < k`, has been set to true. */
  function Painted(rle: seq<int>, n: nat, k: nat): (s: seq<bool>)
    requires 2 * k <= |rle|
    ensures |s| == n
  {
    if k == 0 then Repeat(false, n)
    else
      var bounds := PairSlice(rle, n, k - 1);
      SetRange(Painted(rle, n, k - 1), bounds.0, bounds.1, true)
  }

  /** The slice `[cum[2m]:cum[2m+1]]` of pair `m`, normalised against `n` cells. */
  function PairSlice(rle: seq<int>, n: nat, m: nat): (b: (nat, nat))
    requires 2 * m + 1 < |rle|
    ensures b.0 <= b.1 <= n
  {
    var cum := CumSum(rle);
    Slice(Some(cum[2 * m]), Some(cum[2 * m + 1]), n)
  }

  /** What `rle_to_mask(rle, (h, w))` returns: the painted buffer read in
      column-major order as an `h` by `w` grid. A negative dimension is the
      ValueError `numpy.zeros`/`reshape` raise. */
  function Decoded(rle: seq<int>, h: int, w: int): (r: Result<Grid<bool>>)
    ensures r.Ok? <==> h >= 0 && w >= 0
    ensures r.Err? ==> r.error == ValueError
    ensures r.Ok? ==> r.value.Valid() && r.value.h == h && r.value.w == w
  {
    if h < 0 || w < 0 then Err(ValueError) else Ok(Grid(h, w, Painted(rle, h * w, |rle| / 2)))
  }

  /** `rle_to_mask(rle, (h, w))`: paints the pairs of cumulative sums into a
      zero buffer, one slice assignment per pair. */
  method RleToMask(rle: seq<int>, h: int, w: int) returns (r: Result<Grid<bool>>)
    ensures r == Decoded(rle, h, w)
  {
    if h < 0 || w < 0 {
      return Err(ValueError);
    }
    var n := h * w;
    var buf := new bool[n](_ => false);
    assert buf[..] == Painted(rle, n, 0);
    PaintPairs(buf, rle);
    return Ok(Grid(h, w, buf[..]));
  }

  /** The loop of `rle_to_mask`: one slice assignment per pair of
      cumulative sums, onto a zero buffer. */
  method PaintPairs(buf: array<bool>, rle: seq<int>)
    requires buf[..] == Painted(rle, buf.Length, 0)
    modifies buf
    ensures buf[..] == Painted(rle, buf.Length, |rle| / 2)
  {
    var cum := CumSum(rle);
    var k := 0;
    while 2 * k + 1 < |rle|
      invariant 2 * k <= |rle|
      invariant buf[..] == Painted(rle, buf.Length, k)
    {
      var bounds := Slice(Some(cum[2 * k]), Some(cum[2 * k + 1]), buf.Length);
      assert Painted(rle, buf.Length, k + 1) == SetRange(buf[..], bounds.0, bounds.1, true) by {
        assert bounds == PairSlice(rle, buf.Length, k);
      }
      SetTrue(buf, bounds.0, bounds.1);
      k := k + 1;
    }
    assert k == |rle| / 2;
  }

  /** The slice assignment `buf[lo:hi] = 1`. */
  method SetTrue(buf: array<bool>, lo: nat, hi: nat)
    requires lo <= hi <= buf.Length
    modifies buf
    ensures buf[..] == SetRange(old(buf[..]), lo, hi, true)
  {
    var p := lo;
    while p < hi
      invariant lo <= p <= hi
      invariant forall q :: 0 <= q < buf.Length ==> buf[q] == (lo <= q < p || old(buf[q]))
    {
      buf[p] := true;
      p := p + 1;
    }
  }

  // ---- meaning of the decoder on run lengths ----

  /** `s` cut or padded with false cells to exactly `n` cells. */
  function Fit(s: seq<bool>, n: nat): (r: seq<bool>)
    ensures |r| == n
    ensures forall p :: 0 <= p < n ==> r[p] == (p < |s| && s[p])
  {
    seq(n, p requires 0 <= p < n => p < |s| && s[p])
  }

  lemma {:induction false} ExpandLength(rle: seq<int>, v: bool)
    requires NonNeg(rle)
    ensures |Expand(rle, v)| == Sum(rle)
  {
    if rle != [] {
      ExpandLength(rle[1..], !v);
      assert rle == [rle[0]] + rle[1..];
      SumCons(rle[0], rle[1..]);
    }
  }

  /** Expanding a concatenation continues with the value the first part ends on. */
  lemma {:induction false} ExpandAppend(a: seq<int>, b: seq<int>, v: bool)
    requires NonNeg(a) && NonNeg(b)
    ensures NonNeg(a + b)
    ensures Expand(a + b, v) == Expand(a, v) + Expand(b, if |a| % 2 == 0 then v else !v)
  {
    if a == [] {
      assert a + b == b;
    } else {
      CutAppend(a, b, 1);
      ExpandAppend(a[1..], b, !v);
      ParityStep(|a|);
    }
  }

  lemma ParityStep(n: nat)
    requires n >= 1
    ensures (n % 2 == 0) <==> ((n - 1) % 2 != 0)
  {
  }

  /** Twice a number is even. */
  lemma Even(k: nat)
    ensures (2 * k) % 2 == 0
  {
  }

  /** Half of `n`, rounded down, doubled, is `n` or `n - 1`. */
  lemma Halves(n: nat)
    ensures 2 * (n / 2) <= n <= 2 * (n / 2) + 1
  {
  }

  /** Expanding an even-length prefix followed by one (false, true) pair. */
  lemma ExpandPair(pre: seq<int>, a: int, b: int)
    requires NonNeg(pre) && a >= 0 && b >= 0 && |pre| % 2 == 0
    ensures NonNeg(pre + [a, b])
    ensures Expand(pre + [a, b], false) == Expand(pre, false) + Repeat(false, a) + Repeat(true, b)
  {
    ExpandAppend(pre, [a, b], false);
    assert [a, b][1..] == [b];
    assert Expand([b], true) == Repeat(true, b) + Expand([], false);
  }

  /** The cumulative sums that bound pair `k - 1`. */
  lemma PairBounds(rle: seq<int>, k: nat)
    requires 1 <= k && 2 * k <= |rle|
    ensures var pre := rle[..2 * k - 2];
      && CumSum(rle)[2 * k - 2] == Sum(pre) + rle[2 * k - 2]
      && CumSum(rle)[2 * k - 1] == Sum(pre) + rle[2 * k - 2] + rle[2 * k - 1]
  {
    var pre := rle[..2 * k - 2];
    var a, b := rle[2 * k - 2], rle[2 * k - 1];
    assert rle[..2 * k - 1] == pre + [a];
    assert rle[..2 * k] == pre + [a, b];
    SumAppend(pre, [a]);
    SumAppend(pre, [a, b]);
    assert Sum([a]) == a;
    assert [a, b][..1] == [a];
  }

  /** Painting the true run of one more pair onto a fitted buffer. */
  lemma FitPair(e: seq<bool>, a: nat, b: nat, n: nat)
    ensures Slice(Some(|e| + a), Some(|e| + a + b), n) == (if |e| + a < n then |e| + a else n, if |e| + a + b < n then |e| + a + b else n)
    ensures var bounds := Slice(Some(|e| + a), Some(|e| + a + b), n);
      SetRange(Fit(e, n), bounds.0, bounds.1, true) == Fit(e + Repeat(false, a) + Repeat(true, b), n)
  {
  }

  /** Trailing false cells do not change a fitted buffer. */
  lemma FitFalse(e: seq<bool>, a: nat, n: nat)
    ensures Fit(e + Repeat(false, a), n) == Fit(e, n)
  {
  }

  /** One pair at a time, the buffer is the fitted expansion of the runs so far. */
  lemma {:induction false} PaintedPrefix(rle: seq<int>, n: nat, k: nat)
    requires NonNeg(rle) && 2 * k <= |rle|
    ensures Painted(rle, n, k) == Fit(Expand(rle[..2 * k], false), n)
  {
    if k == 0 {
      assert rle[..0] == [];
    } else {
      PaintedPrefix(rle, n, k - 1);
      PaintedStep(rle, n, k);
    }
  }

  lemma PaintedStep(rle: seq<int>, n: nat, k: nat)
    requires NonNeg(rle) && 1 <= k && 2 * k <= |rle|
    requires Painted(rle, n, k - 1) == Fit(Expand(rle[..2 * k - 2], false), n)
    ensures Painted(rle, n, k) == Fit(Expand(rle[..2 * k], false), n)
  {
    var pre := rle[..2 * k - 2];
    var a, b := rle[2 * k - 2], rle[2 * k - 1];
    var e := Expand(pre, false);
    assert Painted(rle, n, k) == Fit(e + Repeat(false, a) + Repeat(true, b), n) by {
      ExpandLength(pre, false);
      PairBounds(rle, k);
      PairSliceAt(rle, n, k);
      FitPair(e, a, b, n);
    }
    assert rle[..2 * k] == pre + [a, b] by {
      LastPair(rle, 2 * k);
    }
    Even(k - 1);
    ExpandPair(pre, a, b);
  }

  lemma PairSliceAt(rle: seq<int>, n: nat, k: nat)
    requires 1 <= k && 2 * k <= |rle|
    ensures PairSlice(rle, n, k - 1) == Slice(Some(CumSum(rle)[2 * k - 2]), Some(CumSum(rle)[2 * k - 1]), n)
  {
  }

  lemma LastPair<T>(s: seq<T>, m: nat)
    requires 2 <= m <= |s|
    ensures s[..m] == s[..m - 2] + [s[m - 2], s[m - 1]]
  {
  }

  /** The decoded buffer is the expansion of the runs, cut or padded to the
      requested size: an unpaired final run adds only false cells. */
  lemma PaintedRuns(rle: seq<int>, n: nat)
    requires NonNeg(rle)
    ensures Painted(rle, n, |rle| / 2) == Fit(Expand(rle, false), n)
  {
    var k := |rle| / 2;
    Halves(|rle|);
    PaintedPrefix(rle, n, k);
    if 2 * k < |rle| {
      SplitLast(rle);
      Even(k);
      UnpairedRun(rle[..2 * k], rle[2 * k], n);
    } else {
      assert rle[..2 * k] == rle;
    }
  }

  lemma UnpairedRun(pre: seq<int>, last: int, n: nat)
    requires NonNeg(pre) && last >= 0 && |pre| % 2 == 0
    ensures NonNeg(pre + [last])
    ensures Fit(Expand(pre + [last], false), n) == Fit(Expand(pre, false), n)
  {
    ExpandAppend(pre, [last], false);
    assert Expand([last], false) == Repeat(false, last) + Expand([], true);
    FitFalse(Expand(pre, false), last, n);
  }

  /** Decoding the runs of a mask with the mask's own shape gives the mask back. */
  lemma RoundTrip(mask: Grid<bool>)
    requires mask.Valid() && mask.h * mask.w >= 1
    ensures MaskToRle(mask).Ok?
    ensures Decoded(MaskToRle(mask).value, mask.h, mask.w) == Ok(mask)
  {
    var rle := MaskToRle(mask).value;
    EncodeFlatRuns(mask.cells);
    PaintedRuns(rle, mask.h * mask.w);
    assert Fit(mask.cells, |mask.cells|) == mask.cells;
  }
}
