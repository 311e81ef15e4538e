/** Splitting an array into chunks of near-equal size (module
    `goripy.array.chunk`), on top of `numpy.array_split`. */
module ArrayChunk {
  import opened Results
  import opened Seqs
  import opened PyNum

  /** The size of chunk `i` of `numpy.array_split` of `n` elements into `k`
      chunks: the first `n % k` chunks hold one element more. */
  function Size(n: nat, k: nat, i: nat): nat
    requires k > 0
  {
    n / k + (if i < n % k then 1 else 0)
  }

  /** Where chunk `i` starts (and chunk `i - 1` ends). */
  function Bound(n: nat, k: nat, i: nat): (b: nat)
    requires k > 0 && i <= k
    ensures b <= n
  {
    BoundLe(n, k, i);
    i * (n / k) + (if i < n % k then i else n % k)
  }

  lemma BoundLe(n: nat, k: nat, i: nat)
    requires k > 0 && i <= k
    ensures i * (n / k) + (if i < n % k then i else n % k) <= n
  {
    MulMono(k, i, n / k);
    assert k * (n / k) + n % k == n;
  }

  lemma BoundStep(n: nat, k: nat, i: nat)
    requires k > 0 && i < k
    ensures Bound(n, k, i + 1) == Bound(n, k, i) + Size(n, k, i)
  {
    assert (i + 1) * (n / k) == i * (n / k) + n / k;
  }

  lemma {:induction false} BoundRange(n: nat, k: nat, i: nat)
    requires k > 0 && i <= k
    ensures Bound(n, k, i) <= Bound(n, k, k) == n
    decreases k - i
  {
    if i < k {
      BoundStep(n, k, i);
      BoundRange(n, k, i + 1);
    } else {
      assert k * (n / k) + n % k == n;
    }
  }

  /** Chunk `i` of `a` split into `k` chunks. */
  function Chunk<T>(a: seq<T>, k: nat, i: nat): (c: seq<T>)
    requires k > 0 && i < k
    ensures |c| == Size(|a|, k, i)
  {
    BoundRange(|a|, k, i + 1);
    BoundStep(|a|, k, i);
    a[Bound(|a|, k, i)..Bound(|a|, k, i + 1)]
  }

  /** `numpy.array_split(a, k)`; a number of chunks below 1 is a ValueError. */
  function ArraySplit<T>(a: seq<T>, k: int): (r: Result<seq<seq<T>>>)
    ensures r.Err? <==> k <= 0
    ensures r.Err? ==> r.error == ValueError
    ensures r.Ok? ==> |r.value| == k
  {
    if k <= 0 then Err(ValueError)
    else Ok(seq(k, i requires 0 <= i < k => Chunk(a, k, i)))
  }

  lemma {:induction false} FlattenChunks<T>(a: seq<T>, k: nat, m: nat)
    requires 0 < k && m <= k
    ensures Flatten(seq(m, i requires 0 <= i < m => Chunk(a, k, i))) == a[..Bound(|a|, k, m)]
  {
    BoundRange(|a|, k, m);
    if m > 0 {
      var ss := seq(m, i requires 0 <= i < m => Chunk(a, k, i));
      assert ss[..m - 1] == seq(m - 1, i requires 0 <= i < m - 1 => Chunk(a, k, i));
      FlattenChunks(a, k, m - 1);
      BoundStep(|a|, k, m - 1);
      BoundRange(|a|, k, m - 1);
      assert a[..Bound(|a|, k, m - 1)] + a[Bound(|a|, k, m - 1)..Bound(|a|, k, m)] == a[..Bound(|a|, k, m)];
    }
  }

  /** `numpy.array_split` keeps the elements in order, and its chunk sizes
      are the even share, one more for the first `n % k` chunks. */
  lemma ArraySplitSpec<T>(a: seq<T>, k: int)
    requires k > 0
    ensures var r := ArraySplit(a, k).value;
      Flatten(r) == a &&
      (forall i :: 0 <= i < k ==> |r[i]| == |a| / k + (if i < |a| % k then 1 else 0)) &&
      (forall i, j :: 0 <= i < k && 0 <= j < k ==> |r[i]| <= |r[j]| + 1)
  {
    FlattenChunks(a, k, k);
    BoundRange(|a|, k, k);
    assert a[..|a|] == a;
  }

  /** With more chunks than elements, the first elements are singletons
      and the remaining chunks are empty. */
  lemma ArraySplitMany<T>(a: seq<T>, k: int)
    requires k > |a|
    ensures forall i :: 0 <= i < k ==> ArraySplit(a, k).value[i] == (if i < |a| then [a[i]] else [])
  {
    forall i | 0 <= i < k
      ensures ArraySplit(a, k).value[i] == (if i < |a| then [a[i]] else [])
    {
      BoundFew(|a|, k, i);
      BoundFew(|a|, k, i + 1);
    }
  }

  lemma BoundFew(n: nat, k: nat, i: nat)
    requires n < k && i <= k
    ensures Bound(n, k, i) == (if i < n then i else n)
  {
    assert n / k == 0 && n % k == n;
    assert i * (n / k) == 0;
  }

  /** The number of chunks `chunk_partition_size` asks for:
      `max(1, ceil(n / chunk_size))`; a chunk size of 0 is a ZeroDivisionError. */
  function NumChunks(n: nat, chunkSize: int): (r: Result<int>)
    ensures r.Err? <==> chunkSize == 0
    ensures r.Err? ==> r.error == ZeroDivisionError
    ensures r.Ok? ==> r.value >= 1
  {
    if chunkSize == 0 then Err(ZeroDivisionError)
    else
      var c := Ceil(n as real / chunkSize as real);
      Ok(if c < 1 then 1 else c)
  }

  /** `chunk_partition_size(arr, chunk_size)`. */
  function ChunkPartitionSize<T>(a: seq<T>, chunkSize: int): (r: Result<seq<seq<T>>>)
  {
    match NumChunks(|a|, chunkSize)
    case Err(e) => Err(e)
    case Ok(k) => ArraySplit(a, k)
  }

  /** `chunk_partition_num(arr, num_chunks)`. */
  function ChunkPartitionNum<T>(a: seq<T>, numChunks: int): (r: Result<seq<seq<T>>>)
  {
    ArraySplit(a, numChunks)
  }

  /** For a positive size, `ceil(n / size)` chunks (at least one) that keep
      the elements in order and hold at most `size` elements each. */
  lemma ChunkPartitionSizeSpec<T>(a: seq<T>, chunkSize: int)
    requires chunkSize > 0
    ensures ChunkPartitionSize(a, chunkSize).Ok?
    ensures var r := ChunkPartitionSize(a, chunkSize).value;
      Flatten(r) == a &&
      |r| == (if |a| == 0 then 1 else (|a| + chunkSize - 1) / chunkSize) &&
      forall i :: 0 <= i < |r| ==> |r[i]| <= chunkSize
  {
    var n := |a|;
    var k := NumChunks(n, chunkSize).value;
    ChunkCount(n, chunkSize);
    ArraySplitSpec(a, k);
    ChunkFits(n, k, chunkSize);
  }

  /** For a positive size, the chunk count is `ceil(n / size)`, at least one, and covers `n`. */
  lemma ChunkCount(n: nat, c: int)
    requires c > 0
    ensures var k := NumChunks(n, c).value;
      k == (if n == 0 then 1 else (n + c - 1) / c) && k * c >= n
  {
    CeilDiv(n, c);
    var q := (n + c - 1) / c;
    assert q * c >= n by {
      assert q * c > n + c - 1 - c;
    }
    if n > 0 {
      assert q >= 1 by {
        assert n + c - 1 >= c;
        DivShift(n - 1, c);
      }
    }
  }

  /** A negative size gives the whole array as one chunk. */
  lemma ChunkPartitionNegativeSize<T>(a: seq<T>, chunkSize: int)
    requires chunkSize < 0
    ensures ChunkPartitionSize(a, chunkSize) == Ok([a])
  {
    NegativeRatio(|a|, chunkSize);
    var r := ArraySplit(a, 1).value;
    BoundRange(|a|, 1, 1);
    assert r == [a[0..|a|]];
    assert a[0..|a|] == a;
  }

  /** `ceil(n / c)` for a positive `c` is the integer `(n + c - 1) / c`. */
  lemma CeilDiv(n: nat, c: int)
    requires c > 0
    ensures Ceil(n as real / c as real) == (n + c - 1) / c
  {
    var q := (n + c - 1) / c;
    assert (q - 1) * c < n <= q * c by {
      assert q * c <= n + c - 1 < q * c + c;
    }
    CastMul(q, c);
    CastMul(q - 1, c);
    CeilReal(n as real, c as real, q as real);
  }

  lemma CastMul(a: int, b: int)
    ensures (a * b) as real == (a as real) * (b as real)
  {
  }

  /** `n / c` lies in `(q - 1, q]` when `n` lies in `((q - 1) * c, q * c]`. */
  lemma CeilReal(n: real, c: real, q: real)
    requires c > 0.0 && (q - 1.0) * c < n <= q * c
    ensures q - 1.0 < n / c <= q
  {
    var x := n / c;
    assert x * c == n;
    RealScale(x, q, c);
    RealScale(x, q - 1.0, c);
  }

  lemma NegativeRatio(n: nat, c: int)
    requires c < 0
    ensures Ceil(n as real / c as real) <= 0
  {
    assert n as real / c as real <= 0.0;
  }

  /** `k >= n / c` chunks hold at most `c` elements each. */
  lemma ChunkFits(n: nat, k: nat, c: int)
    requires c > 0 && k >= 1 && k * c >= n
    ensures n / k + (if n % k > 0 then 1 else 0) <= c
  {
    var q, rem := n / k, n % k;
    assert n == q * k + rem;
    MulMono(q, c, k);
    MulMono(q, c + 1, k);
    assert (c + 1) * k == c * k + k;
  }

  /** Multiplying by a positive factor keeps the order of two reals. */
  lemma RealScale(x: real, y: real, c: real)
    requires c > 0.0
    ensures x <= y <==> x * c <= y * c
  {
    assert y * c - x * c == (y - x) * c;
  }

  lemma MulMono(x: int, y: int, k: nat)
    ensures x >= y ==> x * k >= y * k
  {
  }

  /** `[0, 1, ..., n - 1]`, `numpy.arange(n)`. */
  function Range(n: nat): (r: seq<int>)
    ensures |r| == n && forall i :: 0 <= i < n ==> r[i] == i
  {
    seq(n, i requires 0 <= i < n => i)
  }

  /** `[l[idx] for idx in idxs]`. */
  function Gather<T>(l: seq<T>, idxs: seq<int>): (r: seq<T>)
    requires forall j :: 0 <= j < |idxs| ==> 0 <= idxs[j] < |l|
    ensures |r| == |idxs|
  {
    seq(|idxs|, j requires 0 <= j < |idxs| => l[idxs[j]])
  }

  /** The chunks of `l` picked out by index chunks. */
  function GatherAll<T>(l: seq<T>, chunks: seq<seq<int>>): (r: seq<seq<T>>)
    requires forall i, j :: 0 <= i < |chunks| && 0 <= j < |chunks[i]| ==> 0 <= chunks[i][j] < |l|
  {
    seq(|chunks|, i requires 0 <= i < |chunks| => Gather(l, chunks[i]))
  }

  lemma ChunksOfRange(n: nat, k: int)
    requires k > 0
    ensures forall i, j :: 0 <= i < k && 0 <= j < |ArraySplit(Range(n), k).value[i]| ==>
      0 <= ArraySplit(Range(n), k).value[i][j] < n
  {
    forall i, j | 0 <= i < k && 0 <= j < |ArraySplit(Range(n), k).value[i]|
      ensures 0 <= ArraySplit(Range(n), k).value[i][j] < n
    {
      BoundRange(n, k, i + 1);
      BoundStep(n, k, i);
    }
  }

  /** `[[l[idx] for idx in chunk] for chunk in split(arange(len(l)))]`. */
  function ListChunks<T>(l: seq<T>, k: int): (r: Result<seq<seq<T>>>)
  {
    match ArraySplit(Range(|l|), k)
    case Err(e) => Err(e)
    case Ok(chunks) =>
      ChunksOfRange(|l|, k);
      Ok(GatherAll(l, chunks))
  }

  /** `chunk_partition_size_list(l, chunk_size)`. */
  function ChunkPartitionSizeList<T>(l: seq<T>, chunkSize: int): (r: Result<seq<seq<T>>>)
  {
    match NumChunks(|l|, chunkSize)
    case Err(e) => Err(e)
    case Ok(k) => ListChunks(l, k)
  }

  /** `chunk_partition_num_list(l, num_chunks)`. */
  function ChunkPartitionNumList<T>(l: seq<T>, numChunks: int): (r: Result<seq<seq<T>>>)
  {
    ListChunks(l, numChunks)
  }

  /** Picking elements through the index chunks gives the chunks of the list itself. */
  lemma ListChunksSame<T>(l: seq<T>, k: int)
    ensures ListChunks(l, k) == ArraySplit(l, k)
  {
    if k > 0 {
      var n := |l|;
      var chunks := ArraySplit(Range(n), k).value;
      ChunksOfRange(n, k);
      var r := GatherAll(l, chunks);
      var s := ArraySplit(l, k).value;
      forall i | 0 <= i < k
        ensures r[i] == s[i]
      {
        GatherChunk(l, k, i);
      }
      assert r == s;
    }
  }

  lemma GatherChunk<T>(l: seq<T>, k: nat, i: nat)
    requires 0 <= i < k
    ensures forall j :: 0 <= j < |Chunk(Range(|l|), k, i)| ==> 0 <= Chunk(Range(|l|), k, i)[j] < |l|
    ensures Gather(l, Chunk(Range(|l|), k, i)) == Chunk(l, k, i)
  {
    var n := |l|;
    BoundRange(n, k, i + 1);
    BoundStep(n, k, i);
    var b := Bound(n, k, i);
    var c := Chunk(Range(n), k, i);
    assert forall j :: 0 <= j < |c| ==> c[j] == b + j;
  }

  /** The list variants partition a list exactly as the array variants do. */
  lemma ListVariantsSame<T>(l: seq<T>, chunkSize: int, numChunks: int)
    ensures ChunkPartitionSizeList(l, chunkSize) == ChunkPartitionSize(l, chunkSize)
    ensures ChunkPartitionNumList(l, numChunks) == ChunkPartitionNum(l, numChunks)
  {
    ListChunksSame(l, numChunks);
    if NumChunks(|l|, chunkSize).Ok? {
      ListChunksSame(l, NumChunks(|l|, chunkSize).value);
    }
  }
}
