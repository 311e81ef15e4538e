/** Variable-length rows kept as one padded 2-D value array plus the length
    of each row (module `goripy.store.varlen2dlist`). */
module VarLen2DList {
  import opened Results
  import opened Seqs
  import opened PyNum

  /** A `VariableLength2DListStorage`: the `|lens|` x `width` value array,
      row by row, and the length of each row. The constructor stores the
      two arrays as given and nothing updates them afterwards. */
  datatype Storage<T> = Storage(values: seq<seq<T>>, width: nat, lens: seq<int>)
  {
    predicate Valid()
    {
      |lens| == |values| && forall i :: 0 <= i < |values| ==> |values[i]| == width
    }
  }

  /** `storage[idx]`: row `idx` (a negative index counts from the end) cut
      to its recorded length. */
  function Get<T>(s: Storage<T>, idx: int): (r: Result<seq<T>>)
    requires s.Valid()
    ensures r.Err? <==> (idx >= |s.values| || idx < -|s.values|)
    ensures r.Err? ==> r.error == IndexError
    ensures r.Ok? ==> |r.value| <= s.width
  {
    match ItemIndex(idx, |s.values|)
    case None => Err(IndexError)
    case Some(k) =>
      var (lo, hi) := Slice(None, Some(s.lens[k]), s.width);
      Ok(s.values[k][lo..hi])
  }

  /** A row whose recorded length fits the array reads back as its first
      `lens[k]` cells, from either end. */
  lemma GetPrefix<T>(s: Storage<T>, k: nat)
    requires s.Valid() && k < |s.values| && 0 <= s.lens[k] <= s.width
    ensures Get(s, k) == Ok(s.values[k][..s.lens[k]])
    ensures Get(s, k - |s.values|) == Ok(s.values[k][..s.lens[k]])
  {
  }

  /** `from_2d_list(orig)`: the lengths, then a `len(orig)` x `max(lengths)`
      buffer of unspecified values (`numpy.empty`) whose row prefixes are
      overwritten one row at a time. With no rows `numpy.max` of the empty
      length array is a ValueError. */
  method FromList<T(0)>(orig: seq<seq<T>>) returns (r: Result<Storage<T>>)
    ensures r.Err? <==> orig == []
    ensures r.Err? ==> r.error == ValueError
    ensures r.Ok? ==> r.value.Valid() && r.value.lens == Lengths(orig) && r.value.width == Max(Lengths(orig))
    ensures r.Ok? ==> forall i :: 0 <= i < |orig| ==> Get(r.value, i) == Ok(orig[i])
  {
    var lens := Lengths(orig);
    if lens == [] {
      return Err(ValueError);
    }
    var width := Max(lens);
    var blank: T := *;
    var values := Repeat(Repeat(blank, width), |orig|);
    for i := 0 to |orig|
      invariant |values| == |orig|
      invariant forall k :: 0 <= k < |orig| ==> |values[k]| == width
      invariant forall k :: 0 <= k < i ==> values[k][..|orig[k]|] == orig[k]
    {
      assert |orig[i]| == lens[i] <= width;
      values := values[i := orig[i] + values[i][|orig[i]|..]];
      assert values[i][..|orig[i]|] == orig[i];
    }
    var s := Storage(values, width, lens);
    forall i | 0 <= i < |orig|
      ensures Get(s, i) == Ok(orig[i])
    {
      GetPrefix(s, i);
    }
    return Ok(s);
  }

  /** The entries of `row` that differ from `invalid`. */
  function Count<T(==)>(row: seq<T>, invalid: T): (c: nat)
    ensures c <= |row|
  {
    if row == [] then 0
    else Count(row[..|row| - 1], invalid) + (if row[|row| - 1] != invalid then 1 else 0)
  }

  lemma {:induction false} CountAppend<T>(a: seq<T>, b: seq<T>, invalid: T)
    ensures Count(a + b, invalid) == Count(a, invalid) + Count(b, invalid)
    decreases |b|
  {
    if b != [] {
      var n := |b| - 1;
      assert (a + b)[..|a + b| - 1] == a + b[..n];
      CountAppend(a, b[..n], invalid);
    } else {
      assert a + b == a;
    }
  }

  lemma {:induction false} CountAvoiding<T>(p: seq<T>, invalid: T)
    requires forall k :: 0 <= k < |p| ==> p[k] != invalid
    ensures Count(p, invalid) == |p|
    decreases |p|
  {
    if p != [] {
      CountAvoiding(p[..|p| - 1], invalid);
    }
  }

  lemma {:induction false} CountOfInvalid<T>(v: T, n: nat)
    ensures Count(Repeat(v, n), v) == 0
  {
    if n > 0 {
      assert Repeat(v, n)[..n - 1] == Repeat(v, n - 1);
      CountOfInvalid(v, n - 1);
    }
  }

  /** A rectangular array's largest entry count fits its width. */
  lemma MaxCountFits<T>(orig: seq<seq<T>>, w: nat, invalid: T, lens: seq<int>)
    requires orig != [] && forall i :: 0 <= i < |orig| ==> |orig[i]| == w
    requires lens == seq(|orig|, i requires 0 <= i < |orig| => Count(orig[i], invalid))
    ensures 0 <= Max(lens) <= w
  {
    var k :| 0 <= k < |lens| && lens[k] == Max(lens);
  }

  /** `from_2d_numpy_array(orig, invalid)` on an `h` x `w` array: a row's
      length is the number of its entries different from `invalid`, wherever
      they are, and the columns are cut to the largest length. With no rows
      `numpy.max` of the empty length array is a ValueError. */
  function FromArray<T(==)>(orig: seq<seq<T>>, w: nat, invalid: T): (r: Result<Storage<T>>)
    requires forall i :: 0 <= i < |orig| ==> |orig[i]| == w
  {
    var lens := seq(|orig|, i requires 0 <= i < |orig| => Count(orig[i], invalid));
    if lens == [] then Err(ValueError)
    else
      MaxCountFits(orig, w, invalid, lens);
      var m := Max(lens);
      Ok(Storage(seq(|orig|, i requires 0 <= i < |orig| => orig[i][..m]), m, lens))
  }

  /** The shape of what `from_2d_numpy_array` builds. */
  lemma FromArraySpec<T>(orig: seq<seq<T>>, w: nat, invalid: T)
    requires forall i :: 0 <= i < |orig| ==> |orig[i]| == w
    ensures FromArray(orig, w, invalid).Err? <==> orig == []
    ensures FromArray(orig, w, invalid).Err? ==> FromArray(orig, w, invalid).error == ValueError
    ensures FromArray(orig, w, invalid).Ok? ==> var s := FromArray(orig, w, invalid).value;
      s.Valid() && s.width <= w &&
      (forall i :: 0 <= i < |orig| ==> s.lens[i] == Count(orig[i], invalid) && s.values[i] == orig[i][..s.width])
  {
    if orig != [] {
      var lens := seq(|orig|, i requires 0 <= i < |orig| => Count(orig[i], invalid));
      MaxCountFits(orig, w, invalid, lens);
    }
  }

  /** An array whose rows are valid entries padded on the right with
      `invalid` (as `llist_to_arrr` builds it) reads back row by row. */
  lemma FromArrayPadded<T>(orig: seq<seq<T>>, w: nat, invalid: T, rows: seq<seq<T>>)
    requires |rows| == |orig| >= 1 && forall i :: 0 <= i < |orig| ==> |orig[i]| == w
    requires forall i :: 0 <= i < |orig| ==> |rows[i]| <= w && orig[i] == rows[i] + Repeat(invalid, w - |rows[i]|)
    requires forall i, k :: 0 <= i < |rows| && 0 <= k < |rows[i]| ==> rows[i][k] != invalid
    ensures FromArray(orig, w, invalid).Ok?
    ensures forall i :: 0 <= i < |rows| ==> Get(FromArray(orig, w, invalid).value, i) == Ok(rows[i])
  {
    FromArraySpec(orig, w, invalid);
    var s := FromArray(orig, w, invalid).value;
    forall i | 0 <= i < |rows|
      ensures Get(s, i) == Ok(rows[i])
    {
      CountAppend(rows[i], Repeat(invalid, w - |rows[i]|), invalid);
      CountAvoiding(rows[i], invalid);
      CountOfInvalid(invalid, w - |rows[i]|);
      assert s.lens[i] == |rows[i]| <= s.width;
      GetPrefix(s, i);
      assert s.values[i][..s.lens[i]] == rows[i];
    }
  }

  /** An `invalid` entry inside a row is not an end marker: the row `[1, 0,
      1]` with invalid value 0 has length 2 and reads back as `[1, 0]`. */
  lemma InteriorInvalid()
    ensures FromArray([[1, 0, 1]], 3, 0).Ok?
    ensures Get(FromArray([[1, 0, 1]], 3, 0).value, 0) == Ok([1, 0])
  {
    var row := [1, 0, 1];
    assert row[..2] == [1, 0] && row[..1] == [1] && row[..0] == [];
    assert Count(row, 0) == 2;
    var lens := seq(1, i requires 0 <= i < 1 => Count([row][i], 0));
    assert lens == [2];
    assert Max(lens) == 2;
    var s := FromArray([row], 3, 0).value;
    assert s.lens == [2] && s.width == 2;
    assert s.values == [row[..2]];
    GetPrefix(s, 0);
    assert s.values[0][..s.lens[0]] == [1, 0];
  }

  /** The bytes of an array of `count` items of `itemSize` bytes each. */
  function ArrayBytes(count: nat, itemSize: nat): nat
  {
    count * itemSize
  }

  /** `get_num_bytes()`: the value array's bytes plus the length array's
      bytes, with the item sizes of the two dtypes as parameters. */
  method GetNumBytes<T>(s: Storage<T>, valueSize: nat, lenSize: nat) returns (n: nat)
    requires s.Valid()
    ensures n == |s.values| * s.width * valueSize + |s.lens| * lenSize
  {
    n := 0;
    n := n + ArrayBytes(|s.values| * s.width, valueSize);
    n := n + ArrayBytes(|s.lens|, lenSize);
  }
}
