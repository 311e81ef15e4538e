/** GPU capacity bookkeeping (module `goripy.gpu.alloc`): a capacity per
    device and a map from tenant to the capacity it holds on one device. */
module GpuAlloc {
  import opened Results

  /** A tenant's record: the device it was given and the capacity it took. */
  datatype Grant = Grant(device: nat, req: int)

  /** The allocator's state as a value: remaining capacity per device and
      the tenant map. */
  datatype State = State(caps: seq<int>, tenants: map<string, Grant>)
  {
    /** Every recorded device exists. */
    predicate Valid()
    {
      forall t :: t in tenants ==> tenants[t].device < |caps|
    }
  }

  /** Device `d` has room for `req` and is the best fit: no device with room
      has less remaining capacity, and no earlier one has as little. */
  predicate IsBestFit(caps: seq<int>, req: int, d: nat)
  {
    d < |caps| && caps[d] >= req &&
    forall i :: 0 <= i < |caps| && caps[i] >= req ==> caps[d] < caps[i] || (caps[d] == caps[i] && d <= i)
  }

  /** `argmin` of the remaining capacities over the devices with
      `cap >= req` (`flatnonzero`), which keeps the first index on ties. */
  function BestFit(caps: seq<int>, req: int): (r: Option<nat>)
    ensures r.Some? ==> IsBestFit(caps, req, r.value)
    ensures r.None? <==> forall i :: 0 <= i < |caps| ==> caps[i] < req
  {
    if caps == [] then None
    else
      var last := |caps| - 1;
      var b := BestFit(caps[..last], req);
      assert forall i :: 0 <= i < last ==> caps[..last][i] == caps[i];
      if caps[last] < req then b
      else if b.None? || caps[last] < caps[b.value] then Some(last)
      else b
  }

  /** The best fit is unique, so the `BestFit` search finds any device that is one. */
  lemma BestFitUnique(caps: seq<int>, req: int, d: nat)
    requires IsBestFit(caps, req, d)
    ensures BestFit(caps, req) == Some(d)
  {
  }

  /** `allocate(tenant_id, req_device_cap)` on a state: the best-fit device
      loses `req` and the tenant records it (replacing any earlier record);
      with no device large enough it is a ValueError. */
  function Alloc(s: State, t: string, req: int): (r: Result<(State, nat)>)
    ensures r.Err? <==> forall i :: 0 <= i < |s.caps| ==> s.caps[i] < req
    ensures r.Err? ==> r.error == ValueError
    ensures r.Ok? ==> IsBestFit(s.caps, req, r.value.1)
  {
    match BestFit(s.caps, req)
    case None => Err(ValueError)
    case Some(d) => Ok((State(s.caps[d := s.caps[d] - req], s.tenants[t := Grant(d, req)]), d))
  }

  /** The successful `allocate` changes the chosen device by `-req` and no
      other, records `(device, req)` for the tenant and keeps every other record. */
  lemma AllocEffect(s: State, t: string, req: int)
    requires Alloc(s, t, req).Ok?
    ensures var (s1, d) := Alloc(s, t, req).value;
      |s1.caps| == |s.caps| && s1.caps[d] == s.caps[d] - req &&
      (forall i :: 0 <= i < |s.caps| && i != d ==> s1.caps[i] == s.caps[i]) &&
      s1.tenants.Keys == s.tenants.Keys + {t} && s1.tenants[t] == Grant(d, req) &&
      (forall u :: u in s.tenants && u != t ==> s1.tenants[u] == s.tenants[u])
  {
  }

  /** `deallocate(tenant_id)`: an unknown tenant changes nothing; a known one
      gives its capacity back to its device and loses its record. */
  function Dealloc(s: State, t: string): (r: State)
    requires s.Valid()
    ensures r.Valid() && |r.caps| == |s.caps| && r.tenants.Keys == s.tenants.Keys - {t}
    ensures t !in s.tenants ==> r == s
  {
    if t !in s.tenants then s
    else
      var g := s.tenants[t];
      State(s.caps[g.device := s.caps[g.device] + g.req], s.tenants - {t})
  }

  lemma AllocValid(s: State, t: string, req: int)
    requires s.Valid() && Alloc(s, t, req).Ok?
    ensures Alloc(s, t, req).value.0.Valid()
  {
  }

  /** Deallocating a tenant that was not present before `allocate` undoes it. */
  lemma AllocDealloc(s: State, t: string, req: int)
    requires s.Valid() && t !in s.tenants && Alloc(s, t, req).Ok?
    ensures Dealloc(Alloc(s, t, req).value.0, t) == s
  {
    var (s1, d) := Alloc(s, t, req).value;
    assert s1.tenants - {t} == s.tenants;
    assert s1.caps[d := s1.caps[d] + req] == s.caps;
  }

  /** Allocating again for a tenant that already holds `Grant(d0, r0)`
      overwrites the record: deallocating afterwards returns only the new
      request, and the capacities end where they were with `r0` still taken
      from device `d0`, though no tenant holds it any more. */
  lemma ReallocLeaks(s: State, t: string, req: int)
    requires s.Valid() && t in s.tenants && Alloc(s, t, req).Ok?
    ensures var s2 := Dealloc(Alloc(s, t, req).value.0, t);
      s2.caps == s.caps && s2.tenants == s.tenants - {t}
  {
    var (s1, d) := Alloc(s, t, req).value;
    assert s1.caps[d := s1.caps[d] + req] == s.caps;
  }

  /** The allocator object. The capacity array is the `numpy` array the
      methods update in place; saving to and loading from disk around each
      call is the identity here. */
  class DeviceAllocator {
    const caps: array<int>
    var tenants: map<string, Grant>

    ghost predicate Valid()
      reads this
    {
      forall t :: t in tenants ==> tenants[t].device < caps.Length
    }

    function Current(): (s: State)
      reads this, caps
      ensures Valid() ==> s.Valid()
    {
      State(caps[..], tenants)
    }

    /** `DeviceAllocator(data_dirname, device_cap_arr)`: a copy of the
        capacities and no tenants. */
    constructor(deviceCaps: seq<int>)
      ensures Valid() && fresh(caps)
      ensures Current() == State(deviceCaps, map[])
    {
      caps := new int[|deviceCaps|](i requires 0 <= i < |deviceCaps| => deviceCaps[i]);
      tenants := map[];
    }

    /** `allocate(tenant_id, req_device_cap)`. On the error path nothing changes. */
    method Allocate(t: string, req: int) returns (r: Result<nat>)
      requires Valid()
      modifies this, caps
      ensures Valid()
      ensures match Alloc(old(Current()), t, req)
        case Err(e) => r == Err(e) && Current() == old(Current())
        case Ok((s, d)) => r == Ok(d) && Current() == s
    {
      var d := BestFit(caps[..], req);
      if d.None? {
        return Err(ValueError);
      }
      var k := d.value;
      caps[k] := caps[k] - req;
      tenants := tenants[t := Grant(k, req)];
      return Ok(k);
    }

    /** `deallocate(tenant_id)`. */
    method Deallocate(t: string)
      requires Valid()
      modifies this, caps
      ensures Valid()
      ensures Current() == Dealloc(old(Current()), t)
    {
      if t !in tenants {
        return;
      }
      var g := tenants[t];
      caps[g.device] := caps[g.device] + g.req;
      tenants := tenants - {t};
    }

    /** `get_tenant_ids()`: every tenant id, once each. */
    method TenantIds() returns (ids: seq<string>)
      ensures forall u :: u in ids <==> u in tenants
      ensures forall i, j :: 0 <= i < j < |ids| ==> ids[i] != ids[j]
    {
      ids := [];
      var rest := tenants.Keys;
      while rest != {}
        invariant rest !! set u | u in ids
        invariant forall u :: u in tenants <==> u in ids || u in rest
        invariant forall i, j :: 0 <= i < j < |ids| ==> ids[i] != ids[j]
        decreases |rest|
      {
        var u :| u in rest;
        ids := ids + [u];
        rest := rest - {u};
      }
    }
  }
}
