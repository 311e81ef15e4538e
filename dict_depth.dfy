/** Flattening a nested dict to one level and back (module
    `goripy.dict.depth`). Dicts are their item sequences in insertion
    order; each of them has distinct keys, as Python dicts do. Only values
    whose type is exactly `dict` are descended into. */
module DictDepth {
  import opened Results
  import opened Seqs
  import opened DictUtils

  /** The flat dict: fresh string keys to the leaves. */
  type Flat = map<string, Value>

  /** The key map: the nested dict's keys, with a nested key map for each
      nested dict and the flat key of each leaf. */
  datatype KeyMap = Nested(items: seq<(Key, KeyMap)>) | Ref(uuid: string)

  /** The values `_flatten_recursive` can iterate over: a dict or an
      instance of a dict subclass. */
  predicate HasItems(v: Value)
  {
    v.Dict? || v.SubDict?
  }

  /** `_unflatten_recursive(flat_dict, key_map)` on the first `n` items: a
      nested key map becomes a nested dict and a flat key becomes its value;
      a flat key that is missing is a KeyError. */
  function UnflattenPrefix(flat: Flat, km: KeyMap, n: nat): Result<seq<(Key, Value)>>
    requires km.Nested? && n <= |km.items|
    decreases km, n
  {
    if n == 0 then Ok([])
    else match UnflattenPrefix(flat, km, n - 1)
      case Err(e) => Err(e)
      case Ok(prefix) =>
        var (key, sub) := km.items[n - 1];
        if sub.Nested? then
          match UnflattenPrefix(flat, sub, |sub.items|)
          case Err(e) => Err(e)
          case Ok(inner) => Ok(prefix + [(key, Dict(inner))])
        else if sub.uuid in flat then Ok(prefix + [(key, flat[sub.uuid])])
        else Err(KeyError)
  }

  /** `unflatten(flat_dict, key_map)`. */
  function Unflatten(flat: Flat, km: KeyMap): Result<Value>
    requires km.Nested?
  {
    match UnflattenPrefix(flat, km, |km.items|)
    case Err(e) => Err(e)
    case Ok(items) => Ok(Dict(items))
  }

  /** The flat keys the first `n` items of a key map refer to. */
  function RefsPrefix(km: KeyMap, n: nat): set<string>
    requires km.Nested? && n <= |km.items|
    decreases km, n
  {
    if n == 0 then {}
    else
      var sub := km.items[n - 1].1;
      RefsPrefix(km, n - 1) + (if sub.Nested? then RefsPrefix(sub, |sub.items|) else {sub.uuid})
  }

  /** The leaves among the first `n` items, nested dicts counted by their own leaves. */
  function LeafCount(v: Value, n: nat): nat
    requires HasItems(v) && n <= |v.items|
    decreases v, n
  {
    if n == 0 then 0
    else
      var sub := v.items[n - 1].1;
      LeafCount(v, n - 1) + (if sub.Dict? then LeafCount(sub, |sub.items|) else 1)
  }

  /** The first `n` items of `km` have the keys of those of `v`, a nested key
      map exactly for each nested dict and a flat key for each leaf. */
  predicate Mirrors(km: KeyMap, v: Value, n: nat)
    requires km.Nested? && HasItems(v) && n <= |km.items| && n <= |v.items|
    decreases km, n
  {
    n == 0 ||
    (Mirrors(km, v, n - 1) &&
     var (k, sub), (key, value) := km.items[n - 1], v.items[n - 1];
     k == key &&
     if value.Dict? then sub.Nested? && |sub.items| == |value.items| && Mirrors(sub, value, |value.items|)
     else sub.Ref?)
  }

  /** `b` keeps every entry of `a`. */
  predicate Extends(a: Flat, b: Flat)
  {
    forall u :: u in a ==> u in b && b[u] == a[u]
  }

  // ---- lemmas the flattening loop needs ----

  /** Appending an item leaves everything about the earlier items as it was. */
  lemma {:induction false} AppendKeeps(flat: Flat, km: KeyMap, e: (Key, KeyMap), v: Value, n: nat)
    requires km.Nested? && n <= |km.items|
    ensures UnflattenPrefix(flat, Nested(km.items + [e]), n) == UnflattenPrefix(flat, km, n)
    ensures RefsPrefix(Nested(km.items + [e]), n) == RefsPrefix(km, n)
    ensures HasItems(v) && n <= |v.items| ==> (Mirrors(Nested(km.items + [e]), v, n) <==> Mirrors(km, v, n))
    decreases n
  {
    if n > 0 {
      AppendKeeps(flat, km, e, v, n - 1);
      assert (km.items + [e])[n - 1] == km.items[n - 1];
    }
  }

  /** A flat dict with more entries unflattens a key map the same way, once
      every key it refers to is present. */
  lemma {:induction false} ExtendKeeps(flat: Flat, flat2: Flat, km: KeyMap, n: nat)
    requires km.Nested? && n <= |km.items|
    requires Extends(flat, flat2) && RefsPrefix(km, n) <= flat.Keys
    ensures UnflattenPrefix(flat2, km, n) == UnflattenPrefix(flat, km, n)
    decreases km, n
  {
    if n > 0 {
      ExtendKeeps(flat, flat2, km, n - 1);
      var sub := km.items[n - 1].1;
      if sub.Nested? {
        ExtendKeeps(flat, flat2, sub, |sub.items|);
      }
    }
  }

  /** A flat key of length `n` is new. */
  lemma {:induction false} LongerThanAll(keys: set<string>) returns (n: nat)
    ensures forall u :: u in keys ==> |u| < n
    decreases |keys|
  {
    if keys == {} {
      n := 0;
    } else {
      var k :| k in keys;
      var m := LongerThanAll(keys - {k});
      n := if m > |k| then m else |k| + 1;
    }
  }

  /** `goripy.uuid.get_new_uuid(uuid_set=flat_dict)`: some key not yet used. */
  method NewUuid(flat: Flat) returns (u: string)
    ensures u !in flat
  {
    var n := LongerThanAll(flat.Keys);
    assert Repeat('0', n) !in flat;
    u :| u !in flat;
  }

  /** What `_flatten_recursive` has achieved after the first `k` items of
      `v`, starting from flat dict `flat0`: the flat dict only grew, by the
      keys the key map refers to, all of them new and one per leaf; the key
      map mirrors the items and unflattens back to them. */
  predicate FlattenedPrefix(flat0: Flat, flat: Flat, km: KeyMap, v: Value, k: nat)
    requires HasItems(v) && k <= |v.items|
  {
    km.Nested? && |km.items| == k &&
    Extends(flat0, flat) &&
    flat.Keys == flat0.Keys + RefsPrefix(km, k) &&
    flat0.Keys !! RefsPrefix(km, k) &&
    |RefsPrefix(km, k)| == LeafCount(v, k) &&
    Mirrors(km, v, k) &&
    UnflattenPrefix(flat, km, k) == Ok(v.items[..k])
  }

  /** `_flatten_recursive(nest_dict, flat_dict)`, with the shared `flat_dict`
      passed in as `flat0` and handed back as `flat`. Each leaf gets a key
      new to the flat dict; the key map mirrors the dict and unflattens back
      to its items. */
  method FlattenRec(v: Value, flat0: Flat) returns (km: KeyMap, flat: Flat)
    requires HasItems(v)
    ensures FlattenedPrefix(flat0, flat, km, v, |v.items|)
    decreases v
  {
    km := Nested([]);
    flat := flat0;
    assert RefsPrefix(km, 0) == {};
    for k := 0 to |v.items|
      invariant FlattenedPrefix(flat0, flat, km, v, k)
    {
      var (key, value) := v.items[k];
      if value.Dict? {
        var sub, flat2 := FlattenRec(value, flat);
        StepDict(flat0, flat, flat2, km, sub, v, k);
        km := Nested(km.items + [(key, sub)]);
        flat := flat2;
      } else {
        var u := NewUuid(flat);
        var flat2 := flat[u := value];
        StepLeaf(flat0, flat, flat2, km, u, v, k);
        km := Nested(km.items + [(key, Ref(u))]);
        flat := flat2;
      }
    }
  }

  /** The key bookkeeping of one loop step: the flat keys `f` are the
      initial ones `a` and the disjoint references `r`; the step adds the new
      keys `n` to both. */
  lemma StepKeys(a: set<string>, f: set<string>, r: set<string>, n: set<string>, c: nat, leaves: nat)
    requires f == a + r && a !! r && |r| == c
    requires f !! n && |n| == leaves
    ensures f + n == a + (r + n) && a !! (r + n) && |r + n| == c + leaves
  {
    assert r !! n;
  }

  lemma ExtendsTrans(a: Flat, b: Flat, c: Flat)
    requires Extends(a, b) && Extends(b, c)
    ensures Extends(a, c)
  {
  }

  /** The references after appending item `e`. */
  lemma StepRefs(km: KeyMap, e: (Key, KeyMap), k: nat)
    requires km.Nested? && |km.items| == k
    ensures RefsPrefix(Nested(km.items + [e]), k + 1) ==
      RefsPrefix(km, k) + (if e.1.Nested? then RefsPrefix(e.1, |e.1.items|) else {e.1.uuid})
  {
    AppendKeeps(map[], km, e, Leaf(0), k);
    assert (km.items + [e])[k] == e;
  }

  /** Appending an item that mirrors `v`'s next item keeps the mirror. */
  lemma StepMirror(km: KeyMap, e: (Key, KeyMap), v: Value, k: nat)
    requires HasItems(v) && k < |v.items| && km.Nested? && |km.items| == k && Mirrors(km, v, k)
    requires e.0 == v.items[k].0
    requires v.items[k].1.Dict? ==> e.1.Nested? && |e.1.items| == |v.items[k].1.items| && Mirrors(e.1, v.items[k].1, |e.1.items|)
    requires !v.items[k].1.Dict? ==> e.1.Ref?
    ensures Mirrors(Nested(km.items + [e]), v, k + 1)
  {
    AppendKeeps(map[], km, e, v, k);
    assert (km.items + [e])[k] == e;
  }

  /** Appending an item that unflattens to `v`'s next item, in a flat dict
      that only grew, keeps the round trip. */
  lemma StepUnflatten(flat: Flat, flat2: Flat, km: KeyMap, e: (Key, KeyMap), v: Value, k: nat)
    requires HasItems(v) && k < |v.items| && km.Nested? && |km.items| == k
    requires UnflattenPrefix(flat, km, k) == Ok(v.items[..k]) && RefsPrefix(km, k) <= flat.Keys
    requires Extends(flat, flat2) && e.0 == v.items[k].0
    requires e.1.Nested? ==> v.items[k].1.Dict? && UnflattenPrefix(flat2, e.1, |e.1.items|) == Ok(v.items[k].1.items)
    requires e.1.Ref? ==> e.1.uuid in flat2 && flat2[e.1.uuid] == v.items[k].1
    ensures UnflattenPrefix(flat2, Nested(km.items + [e]), k + 1) == Ok(v.items[..k + 1])
  {
    AppendKeeps(flat2, km, e, v, k);
    assert (km.items + [e])[k] == e;
    ExtendKeeps(flat, flat2, km, k);
    assert v.items[..k + 1] == v.items[..k] + [v.items[k]];
    if e.1.Nested? {
      assert Dict(v.items[k].1.items) == v.items[k].1;
    }
  }

  /** A nested dict flattened from `flat` into `flat2` extends the loop state. */
  lemma StepDict(flat0: Flat, flat: Flat, flat2: Flat, km: KeyMap, sub: KeyMap, v: Value, k: nat)
    requires HasItems(v) && k < |v.items| && v.items[k].1.Dict?
    requires FlattenedPrefix(flat0, flat, km, v, k)
    requires FlattenedPrefix(flat, flat2, sub, v.items[k].1, |v.items[k].1.items|)
    ensures FlattenedPrefix(flat0, flat2, Nested(km.items + [(v.items[k].0, sub)]), v, k + 1)
  {
    var value := v.items[k].1;
    var e := (v.items[k].0, sub);
    StepRefs(km, e, k);
    StepKeys(flat0.Keys, flat.Keys, RefsPrefix(km, k), RefsPrefix(sub, |sub.items|), LeafCount(v, k), LeafCount(value, |value.items|));
    ExtendsTrans(flat0, flat, flat2);
    StepMirror(km, e, v, k);
    assert value.items[..|value.items|] == value.items;
    StepUnflatten(flat, flat2, km, e, v, k);
  }

  /** Storing a leaf under a new key `u` only grows the flat dict, by `u`. */
  lemma StoreLeaf(flat0: Flat, flat: Flat, flat2: Flat, u: string, value: Value)
    requires Extends(flat0, flat) && u !in flat && flat2 == flat[u := value]
    ensures Extends(flat, flat2) && Extends(flat0, flat2)
    ensures flat2.Keys == flat.Keys + {u} && flat.Keys !! {u} && |{u}| == 1
    ensures u in flat2 && flat2[u] == value
  {
  }

  /** A leaf stored under the new key `u` extends the loop state. */
  lemma StepLeaf(flat0: Flat, flat: Flat, flat2: Flat, km: KeyMap, u: string, v: Value, k: nat)
    requires HasItems(v) && k < |v.items| && !v.items[k].1.Dict?
    requires FlattenedPrefix(flat0, flat, km, v, k) && u !in flat && flat2 == flat[u := v.items[k].1]
    ensures FlattenedPrefix(flat0, flat2, Nested(km.items + [(v.items[k].0, Ref(u))]), v, k + 1)
  {
    var e := (v.items[k].0, Ref(u));
    StoreLeaf(flat0, flat, flat2, u, v.items[k].1);
    StepRefs(km, e, k);
    assert LeafCount(v, k + 1) == LeafCount(v, k) + 1;
    StepKeys(flat0.Keys, flat.Keys, RefsPrefix(km, k), {u}, LeafCount(v, k), 1);
    StepMirror(km, e, v, k);
    StepUnflatten(flat, flat2, km, e, v, k);
  }

  /** `flatten(nest_dict)`: the flat dict and the key map. */
  method Flatten(nest: Value) returns (flat: Flat, km: KeyMap)
    requires HasItems(nest)
    ensures km.Nested? && |km.items| == |nest.items| && Mirrors(km, nest, |nest.items|)
    ensures flat.Keys == RefsPrefix(km, |km.items|) && |flat| == LeafCount(nest, |nest.items|)
    ensures Unflatten(flat, km) == Ok(Dict(nest.items))
  {
    km, flat := FlattenRec(nest, map[]);
    assert nest.items[..|nest.items|] == nest.items;
  }

  /** An error in the first `n` items is the error of the whole. */
  lemma {:induction false} ErrorStays(flat: Flat, km: KeyMap, n: nat, m: nat)
    requires km.Nested? && n <= m <= |km.items| && UnflattenPrefix(flat, km, n).Err?
    ensures UnflattenPrefix(flat, km, m) == UnflattenPrefix(flat, km, n)
    decreases m - n
  {
    if n < m {
      ErrorStays(flat, km, n, m - 1);
    }
  }

  /** `_unflatten_recursive(flat_dict, key_map)`, item by item. */
  method UnflattenRec(flat: Flat, km: KeyMap) returns (r: Result<seq<(Key, Value)>>)
    requires km.Nested?
    ensures r == UnflattenPrefix(flat, km, |km.items|)
    decreases km
  {
    var nestDict: seq<(Key, Value)> := [];
    for k := 0 to |km.items|
      invariant UnflattenPrefix(flat, km, k) == Ok(nestDict)
    {
      var (key, value) := km.items[k];
      if value.Nested? {
        var sub := UnflattenRec(flat, value);
        if sub.Err? {
          ErrorStays(flat, km, k + 1, |km.items|);
          return Err(sub.error);
        }
        nestDict := nestDict + [(key, Dict(sub.value))];
      } else {
        if value.uuid !in flat {
          ErrorStays(flat, km, k + 1, |km.items|);
          return Err(KeyError);
        }
        nestDict := nestDict + [(key, flat[value.uuid])];
      }
    }
    return Ok(nestDict);
  }

  /** `unflatten(flat_dict, key_map)`. */
  method UnflattenMethod(flat: Flat, km: KeyMap) returns (r: Result<Value>)
    requires km.Nested?
    ensures r == Unflatten(flat, km)
  {
    var items := UnflattenRec(flat, km);
    if items.Err? {
      return Err(items.error);
    }
    return Ok(Dict(items.value));
  }

  /** `unflatten(*flatten(d)) == d` whatever fresh keys were drawn, and an
      empty dict, at any depth, comes back empty. */
  method RoundTrip(d: Value) returns (back: Result<Value>)
    requires d.Dict?
    ensures back == Ok(d)
  {
    var flat, km := Flatten(d);
    back := UnflattenMethod(flat, km);
  }

  /** An empty sub-dict becomes an empty key map and contributes no leaf,
      while a dict-subclass value is one leaf. */
  lemma EmptyAndSubclass(key: Key, other: Key, sub: seq<(Key, Value)>)
    ensures LeafCount(Dict([(key, Dict([]))]), 1) == 0
    ensures LeafCount(Dict([(key, SubDict(sub))]), 1) == 1
    ensures forall km: KeyMap :: km.Nested? && |km.items| == 1 && Mirrors(km, Dict([(key, Dict([]))]), 1) ==>
      km.items[0].1 == Nested([])
    ensures forall km: KeyMap :: km.Nested? && |km.items| == 1 && Mirrors(km, Dict([(key, SubDict(sub))]), 1) ==>
      km.items[0].1.Ref?
  {
  }
}
