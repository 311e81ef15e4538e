/** Job numbers of CVAT annotation frames (module `goripy.cvat.anno`): an
    array indexed by frame, filled segment by segment. */
module CvatAnno {
  import opened Results
  import opened PyNum

  /** A `<segment>` element: its job `id` and the inclusive frame range
      `start`..`stop`, as the integers the element's texts hold. */
  datatype Segment = Segment(id: int, start: int, stop: int)

  /** Frame `i` lies in the slice `[start:stop + 1]` of an array of length `n`;
      Python's slice rules clip the bounds and count negative ones from the end. */
  predicate Covers(s: Segment, n: nat, i: nat)
  {
    var r := Slice(Some(s.start), Some(s.stop + 1), n);
    r.0 <= i < r.1
  }

  /** The job of the LAST segment, in document order, whose slice covers `i`. */
  function Owner(segs: seq<Segment>, n: nat, i: nat): (r: Option<int>)
  {
    if segs == [] then None
    else if Covers(segs[|segs| - 1], n, i) then Some(segs[|segs| - 1].id)
    else Owner(segs[..|segs| - 1], n, i)
  }

  /** `Owner` is the job of a covering segment that no later segment overrides,
      and it is `None` exactly when no segment covers `i`. */
  lemma {:induction false} OwnerSpec(segs: seq<Segment>, n: nat, i: nat)
    ensures Owner(segs, n, i).None? <==> forall k :: 0 <= k < |segs| ==> !Covers(segs[k], n, i)
    ensures Owner(segs, n, i).Some? ==>
      exists k :: 0 <= k < |segs| && Covers(segs[k], n, i) && segs[k].id == Owner(segs, n, i).value &&
        forall m :: k < m < |segs| ==> !Covers(segs[m], n, i)
    decreases |segs|
  {
    if segs != [] {
      var last := |segs| - 1;
      var init := segs[..last];
      OwnerSpec(init, n, i);
      assert forall k :: 0 <= k < last ==> segs[k] == init[k];
      if Covers(segs[last], n, i) {
        assert Owner(segs, n, i) == Some(segs[last].id);
      } else {
        assert Owner(segs, n, i) == Owner(init, n, i);
        if Owner(segs, n, i).Some? {
          var k :| 0 <= k < |init| && Covers(init[k], n, i)
            && init[k].id == Owner(init, n, i).value
            && forall m :: k < m < |init| ==> !Covers(init[m], n, i);
          assert segs[k] == init[k];
          assert forall m :: k < m < |segs| ==> !Covers(segs[m], n, i);
          assert Covers(segs[k], n, i) && segs[k].id == Owner(segs, n, i).value;
        }
      }
    }
  }

  /** A later segment overrides every earlier one on the frames it covers. */
  lemma LaterWins(segs: seq<Segment>, s: Segment, n: nat, i: nat)
    requires Covers(s, n, i)
    ensures Owner(segs + [s], n, i) == Some(s.id)
  {
  }

  /** A segment that covers nothing leaves every owner unchanged. */
  lemma UncoveredKeeps(segs: seq<Segment>, s: Segment, n: nat, i: nat)
    requires !Covers(s, n, i)
    ensures Owner(segs + [s], n, i) == Owner(segs, n, i)
  {
    assert (segs + [s])[..|segs|] == segs;
  }

  /** A segment with non-negative bounds covers exactly the frames
      `start..stop` below `n`: a `stop` past the end is clipped, not an error. */
  lemma CoversInRange(s: Segment, n: nat, i: nat)
    requires 0 <= s.start && -1 <= s.stop && i < n
    ensures Covers(s, n, i) <==> s.start <= i <= s.stop
  {
  }

  /** Frames `[lo, hi)` of `a` become `v`; the slice assignment
      `arr[start:stop + 1] = job_num`. */
  method Fill(a: array<int>, lo: nat, hi: nat, v: int)
    requires lo <= hi <= a.Length
    modifies a
    ensures forall i :: 0 <= i < a.Length ==> a[i] == if lo <= i < hi then v else old(a[i])
  {
    var j := lo;
    while j < hi
      invariant lo <= j <= hi
      invariant forall i :: 0 <= i < a.Length ==> a[i] == if lo <= i < j then v else old(a[i])
    {
      a[j] := v;
      j := j + 1;
    }
  }

  /** `compute_anno_idx_to_job_num_arr` on the parsed `stop_frame` and
      segments. The array has `stop_frame + 1` entries; each frame holds the
      job of the last segment covering it, and a frame no segment covers
      keeps whatever `numpy.empty` left there, so nothing is promised about it.
      A `stop_frame` below -1 is the ValueError of a negative array size. */
  method ComputeJobNums(stopFrame: int, segs: seq<Segment>) returns (r: Result<array<int>>)
    ensures r.Err? <==> stopFrame + 1 < 0
    ensures r.Err? ==> r.error == ValueError
    ensures r.Ok? ==> fresh(r.value) && r.value.Length == stopFrame + 1
    ensures r.Ok? ==> forall i :: 0 <= i < r.value.Length && Owner(segs, r.value.Length, i).Some? ==>
      r.value[i] == Owner(segs, r.value.Length, i).value
  {
    if stopFrame + 1 < 0 {
      return Err(ValueError);
    }
    var n: nat := stopFrame + 1;
    var a := new int[n];
    var k := 0;
    while k < |segs|
      invariant k <= |segs|
      invariant forall i :: 0 <= i < n && Owner(segs[..k], n, i).Some? ==> a[i] == Owner(segs[..k], n, i).value
    {
      var s := segs[k];
      var range := Slice(Some(s.start), Some(s.stop + 1), n);
      Fill(a, range.0, range.1, s.id);
      forall i | 0 <= i < n
        ensures Owner(segs[..k + 1], n, i) == if Covers(s, n, i) then Some(s.id) else Owner(segs[..k], n, i)
      {
        assert segs[..k + 1] == segs[..k] + [s];
        if Covers(s, n, i) {
          LaterWins(segs[..k], s, n, i);
        } else {
          UncoveredKeeps(segs[..k], s, n, i);
        }
      }
      k := k + 1;
    }
    assert segs[..k] == segs;
    return Ok(a);
  }
}
