/** Repeated lookups into nested containers (module `goripy.dict`). */
module DictUtils {
  import opened Results
  import opened PyNum

  /** The keys the model distinguishes: strings and integers. */
  datatype Key = KStr(s: string) | KInt(i: int)

  /** A Python value: a `dict` (its items in insertion order), an instance
      of a `dict` subclass, a list, `None`, or any other object. A `Leaf`
      stands for every other object, strings, tuples and bytes included,
      although Python can index those by an integer too. */
  datatype Value =
    | Dict(items: seq<(Key, Value)>)
    | SubDict(items: seq<(Key, Value)>)
    | List(elems: seq<Value>)
    | NoneValue
    | Leaf(payload: int)

  /** The index of the first item whose key is `key`. */
  function FindKey(items: seq<(Key, Value)>, key: Key): (r: Option<nat>)
    ensures r.Some? ==> r.value < |items| && items[r.value].0 == key
    ensures r.Some? ==> forall j :: 0 <= j < r.value ==> items[j].0 != key
    ensures r.None? <==> forall j :: 0 <= j < |items| ==> items[j].0 != key
  {
    if items == [] then None
    else if items[0].0 == key then Some(0)
    else match FindKey(items[1..], key)
      case None => None
      case Some(j) => Some(j + 1)
  }

  /** `value[key]`, None where Python raises: a missing dict key, a list
      index out of range or not an integer, or a value that is not a
      container. */
  function Lookup(value: Value, key: Key): (r: Option<Value>)
  {
    match value
    case Dict(items) => (match FindKey(items, key) case None => None case Some(j) => Some(items[j].1))
    case SubDict(items) => (match FindKey(items, key) case None => None case Some(j) => Some(items[j].1))
    case List(elems) =>
      if key.KInt? then
        match ItemIndex(key.i, |elems|) case None => None case Some(j) => Some(elems[j])
      else None
    case _ => None
  }

  /** The keys looked up one after the other; None at the first failure. */
  function Chain(value: Value, keys: seq<Key>): Option<Value>
  {
    if keys == [] then Some(value)
    else match Chain(value, keys[..|keys| - 1])
      case None => None
      case Some(v) => Lookup(v, keys[|keys| - 1])
  }

  /** `chain_get(my_dict, *keys, default=default)`; Python's own default
      for `default` is `NoneValue`. */
  method ChainGet(myDict: Value, keys: seq<Key>, default: Value) returns (r: Value)
    ensures r == match Chain(myDict, keys) case Some(v) => v case None => default
  {
    var currDict := myDict;
    for k := 0 to |keys|
      invariant Chain(myDict, keys[..k]) == Some(currDict)
    {
      assert keys[..k + 1][..k] == keys[..k];
      var next := Lookup(currDict, keys[k]);
      if next.None? {
        ChainNoneStays(myDict, keys, k + 1);
        return default;
      }
      currDict := next.value;
    }
    assert keys[..|keys|] == keys;
    return currDict;
  }

  /** Once a lookup fails, so does every longer chain. */
  lemma {:induction false} ChainNoneStays(value: Value, keys: seq<Key>, n: nat)
    requires n <= |keys| && Chain(value, keys[..n]).None?
    ensures Chain(value, keys).None?
    decreases |keys| - n
  {
    if n < |keys| {
      assert keys[..n + 1][..n] == keys[..n];
      ChainNoneStays(value, keys, n + 1);
    } else {
      assert keys[..n] == keys;
    }
  }

  /** Looking up `k1` then, from the result, `k2` is looking up `k1 + k2`. */
  lemma {:induction false} ChainAppend(value: Value, k1: seq<Key>, k2: seq<Key>)
    ensures Chain(value, k1 + k2) == match Chain(value, k1) case None => None case Some(v) => Chain(v, k2)
    decreases |k2|
  {
    if k2 == [] {
      assert k1 + k2 == k1;
    } else {
      assert (k1 + k2)[..|k1 + k2| - 1] == k1 + k2[..|k2| - 1];
      ChainAppend(value, k1, k2[..|k2| - 1]);
    }
  }

  /** A path through dicts whose every key is present reaches the nested value. */
  lemma {:induction false} ChainThroughDicts(key: Key, rest: seq<Key>, inner: Value, before: seq<(Key, Value)>, after: seq<(Key, Value)>)
    requires forall j :: 0 <= j < |before| ==> before[j].0 != key
    ensures Chain(Dict(before + [(key, inner)] + after), [key] + rest) == Chain(inner, rest)
  {
    var d := Dict(before + [(key, inner)] + after);
    var items := before + [(key, inner)] + after;
    assert items[|before|] == (key, inner);
    assert FindKey(items, key) == Some(|before|);
    assert Chain(d, [key]) == Some(inner) by {
      assert [key][..0] == [];
    }
    ChainAppend(d, [key], rest);
  }

  /** A key on a non-container, or a string key on a list, gives the default. */
  lemma NonContainerFails(payload: int, elems: seq<Value>, s: string, keys: seq<Key>)
    requires keys != []
    ensures Chain(Leaf(payload), keys).None? && Chain(NoneValue, keys).None?
    ensures Chain(List(elems), [KStr(s)] + keys).None?
  {
    assert keys[..1][..0] == [];
    assert Chain(Leaf(payload), keys[..1]).None?;
    ChainNoneStays(Leaf(payload), keys, 1);
    assert Chain(NoneValue, keys[..1]).None?;
    ChainNoneStays(NoneValue, keys, 1);
    var ks := [KStr(s)] + keys;
    assert ks[..1] == [KStr(s)] && [KStr(s)][..0] == [];
    ChainNoneStays(List(elems), ks, 1);
  }
}
