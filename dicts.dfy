/**
 * A Python `dict` as far as its iteration order matters: the keys in insertion
 * order and the mapping. Assigning to a key already present keeps its place.
 */
module Dicts {

  datatype PyDict<K(==, !new), V> = PyDict(keys: seq<K>, values: map<K, V>)

  /** The keys are distinct and are exactly the keys of the mapping. */
  ghost predicate Valid<K(!new), V>(d: PyDict<K, V>)
  {
    (forall i, j :: 0 <= i < j < |d.keys| ==> d.keys[i] != d.keys[j]) &&
    (forall k :: k in d.values <==> k in d.keys)
  }

  /** `{}` */
  function Empty<K(==, !new), V>(): (d: PyDict<K, V>)
    ensures Valid(d) && d.keys == [] && d.values == map[]
  {
    PyDict([], map[])
  }

  /** `d[k] = v`: a new key goes last, a present key keeps its place. */
  function Put<K(==, !new), V>(d: PyDict<K, V>, k: K, v: V): (r: PyDict<K, V>)
    requires Valid(d)
    ensures Valid(r)
    ensures r.values == d.values[k := v]
    ensures k in d.values ==> r.keys == d.keys
    ensures k !in d.values ==> r.keys == d.keys + [k]
  {
    if k in d.values then PyDict(d.keys, d.values[k := v])
    else PyDict(d.keys + [k], d.values[k := v])
  }

  /** Assigning never moves a key that was there before. */
  lemma PutKeepsOrder<K(!new), V>(d: PyDict<K, V>, k: K, v: V)
    requires Valid(d)
    ensures |d.keys| <= |Put(d, k, v).keys|
    ensures Put(d, k, v).keys[..|d.keys|] == d.keys
  {
    assert (d.keys + [k])[..|d.keys|] == d.keys;
  }
}
