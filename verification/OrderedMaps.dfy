/** An insertion-ordered map, as a sequence of entries with distinct keys. */
module OrderedMaps {
  import opened Common

  type OrderedMap<K, V> = seq<(K, V)>

  ghost predicate Distinct<K, V>(m: OrderedMap<K, V>) {
    forall i, j :: 0 <= i < j < |m| ==> m[i].0 != m[j].0
  }

  predicate Has<K(==), V>(m: OrderedMap<K, V>, key: K) {
    exists i :: 0 <= i < |m| && m[i].0 == key
  }

  function Lookup<K(==), V>(m: OrderedMap<K, V>, key: K): (r: Option<V>)
    ensures r.Some? <==> Has(m, key)
    ensures r.Some? ==> exists i :: 0 <= i < |m| && m[i] == (key, r.value)
  {
    if m == [] then None
    else if m[|m| - 1].0 == key then Some(m[|m| - 1].1)
    else
      assert Has(m[..|m| - 1], key) <==> Has(m, key);
      Lookup(m[..|m| - 1], key)
  }

  /** A key that is present keeps its place; a new one goes last. */
  function Put<K(==), V>(m: OrderedMap<K, V>, key: K, value: V): (r: OrderedMap<K, V>)
    ensures |r| == if Has(m, key) then |m| else |m| + 1
    ensures forall e :: e in r ==> e in m || e == (key, value)
  {
    if m == [] then [(key, value)]
    else if m[|m| - 1].0 == key then m[..|m| - 1] + [(key, value)]
    else if Has(m[..|m| - 1], key) then
      Put(m[..|m| - 1], key, value) + [m[|m| - 1]]
    else
      m + [(key, value)]
  }
}
