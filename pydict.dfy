// Python's `dict` as the source relies on it: iteration follows first
// insertion, and assigning to a key that is already present keeps its
// position and replaces its value.
module PyDict {
  import opened Base

  datatype Dict<K, V> = Dict(keys: seq<K>, entries: map<K, V>)

  /** The keys are listed once each, and exactly the keys of the map are listed. */
  ghost predicate Valid<K, V>(d: Dict<K, V>)
  {
    && Distinct(d.keys)
    && d.entries.Keys == (set k | k in d.keys)
  }

  function Empty<K, V>(): (d: Dict<K, V>)
    ensures Valid(d) && d.keys == [] && d.entries == map[]
  {
    Dict([], map[])
  }

  /** `d[k] = v`: a new key goes to the end, a present key keeps its place. */
  function Put<K, V>(d: Dict<K, V>, k: K, v: V): (r: Dict<K, V>)
    requires Valid(d)
    ensures Valid(r)
    ensures r.entries == d.entries[k := v]
    ensures k in d.entries ==> r.keys == d.keys
    ensures k !in d.entries ==> r.keys == d.keys + [k]
  {
    if k in d.entries then Dict(d.keys, d.entries[k := v])
    else Dict(d.keys + [k], d.entries[k := v])
  }

  /** `list(d.values())`: the values in key order. */
  function Values<K, V>(d: Dict<K, V>): (vs: seq<V>)
    requires Valid(d)
    ensures |vs| == |d.keys|
    ensures forall i :: 0 <= i < |vs| ==> vs[i] == d.entries[d.keys[i]]
  {
    seq(|d.keys|, i requires 0 <= i < |d.keys| => d.entries[d.keys[i]])
  }
}
