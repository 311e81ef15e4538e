/** Python's number and slicing rules that the utilities rely on, made explicit.

    Floats are modelled as exact reals; `round` (and `numpy.around`) rounds
    half to even; a slice `a[start:stop]` with step 1 is normalised the way
    Python does, including negative indices counted from the end. */
module PyNum {
  import opened Results

  /** Python's `round(x)` / `numpy.around(x)` on an exact real: nearest integer, ties to even. */
  function RoundHalfEven(x: real): (r: int)
    ensures (r as real) - 0.5 <= x <= (r as real) + 0.5
    ensures x - (x.Floor as real) == 0.5 ==> r % 2 == 0
  {
    var f := x.Floor;
    var frac := x - f as real;
    if frac < 0.5 then f
    else if frac > 0.5 then f + 1
    else if f % 2 == 0 then f else f + 1
  }

  lemma RoundOfInt(n: int)
    ensures RoundHalfEven(n as real) == n
  {
    assert (n as real).Floor == n;
  }

  /** Rounding is monotone: x <= y implies round(x) <= round(y). */
  lemma RoundMonotone(x: real, y: real)
    requires x <= y
    ensures RoundHalfEven(x) <= RoundHalfEven(y)
  {
    var rx, ry := RoundHalfEven(x), RoundHalfEven(y);
    if rx > ry {
      // rx - 1/2 <= x <= y <= ry + 1/2 forces rx == ry + 1 and x == y == ry + 1/2
      assert rx == ry + 1;
      assert x == y;
    }
  }

  /** Rounding a value strictly below an integer bound stays within the bound. */
  lemma RoundBelow(x: real, m: int)
    requires x <= m as real
    ensures RoundHalfEven(x) <= m
  {
    RoundMonotone(x, m as real);
    RoundOfInt(m);
  }

  lemma RoundAbove(x: real, m: int)
    requires m as real <= x
    ensures m <= RoundHalfEven(x)
  {
    RoundMonotone(m as real, x);
    RoundOfInt(m);
  }

  /** Python's `a // b` for a positive divisor (floor division). */
  function FloorDiv(a: int, b: int): (q: int)
    requires b > 0
    ensures q * b <= a < q * b + b
  {
    a / b
  }

  /** One end of a step-1 slice, normalised against a length `n`. */
  function SliceIndex(i: int, n: nat): (r: nat)
    ensures r <= n
    ensures 0 <= i <= n ==> r == i
  {
    if i < 0 then (if i + n < 0 then 0 else i + n)
    else if i > n then n
    else i
  }

  /** The half-open index range `[lo, hi)` that `a[start:stop]` selects
      in a sequence of length `n`; `None` stands for an omitted bound. */
  function Slice(start: Option<int>, stop: Option<int>, n: nat): (r: (nat, nat))
    ensures r.0 <= r.1 <= n
  {
    var lo := if start.None? then 0 else SliceIndex(start.value, n);
    var hi := if stop.None? then n else SliceIndex(stop.value, n);
    (lo, if hi < lo then lo else hi)
  }

  /** For in-range, ordered bounds a slice is exactly `[start, stop)`. */
  lemma SliceInRange(start: int, stop: int, n: nat)
    requires 0 <= start <= stop <= n
    ensures Slice(Some(start), Some(stop), n) == (start, stop)
  {
  }

  /** `a[start:start + len]` selects at most `len` elements. */
  lemma SliceWidth(start: int, len: nat, n: nat)
    ensures Slice(Some(start), Some(start + len), n).1 - Slice(Some(start), Some(start + len), n).0 <= len
  {
  }

  /** The position `a[i]` reads in a sequence of length `n`: a negative
      index counts from the end; any other index out of range is Python's
      IndexError, `None` here. */
  function ItemIndex(i: int, n: nat): (r: Option<nat>)
    ensures r.None? <==> (i >= n || i < -(n as int))
    ensures r.Some? ==> r.value < n && (if i >= 0 then r.value == i else r.value == i + n)
  {
    if 0 <= i < n then Some(i)
    else if -(n as int) <= i < 0 then Some(i + n)
    else None
  }

  /** `math.ceil(x)` on an exact real. */
  function Ceil(x: real): (r: int)
    ensures x <= r as real < x + 1.0
  {
    -((-x).Floor)
  }

  lemma DivShift(x: int, b: int)
    requires b >= 1
    ensures (x + b) / b == x / b + 1
  {
    var q, r := x / b, x % b;
    var q', r' := (x + b) / b, (x + b) % b;
    assert (q' - q - 1) * b == r - r' by {
      assert q * b + r == x && q' * b + r' == x + b;
      assert (q' - q - 1) * b == q' * b - q * b - b;
    }
    MulSmall(q' - q - 1, b, r - r');
  }

  lemma MulSmall(k: int, b: int, e: int)
    requires b >= 1 && k * b == e && -b < e < b
    ensures k == 0
  {
    MulAwayFromZero(k, b);
  }

  lemma MulAwayFromZero(k: int, b: int)
    requires b >= 1
    ensures k >= 1 ==> k * b >= b
    ensures k <= -1 ==> k * b <= -b
  {
  }

  lemma ModShift(x: int, b: int)
    requires b >= 1
    ensures (x + b) % b == x % b
  {
    DivShift(x, b);
    assert b * ((x + b) / b) == b * (x / b) + b;
  }

  /** `s * k` on a Python list: `k` copies of `s` in a row, nothing when
      `k <= 0`. */
  function ListRepeat<T>(s: seq<T>, k: int): (r: seq<T>)
    ensures |r| == if k <= 0 then 0 else |s| * k
  {
    if k <= 0 then [] else s + ListRepeat(s, k - 1)
  }

  /** Entry `i` of the repetition is entry `i mod |s|` of `s`. */
  lemma {:induction false} ListRepeatAt<T>(s: seq<T>, k: int)
    requires |s| > 0
    ensures forall i :: 0 <= i < |ListRepeat(s, k)| ==> ListRepeat(s, k)[i] == s[i % |s|]
    decreases k
  {
    if k > 0 {
      ListRepeatAt(s, k - 1);
      var r, rest := ListRepeat(s, k), ListRepeat(s, k - 1);
      forall i | 0 <= i < |r|
        ensures r[i] == s[i % |s|]
      {
        if i >= |s| {
          ModShift(i - |s|, |s|);
          assert r[i] == rest[i - |s|];
        }
      }
    }
  }
}
