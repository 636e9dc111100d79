/**
 * A JavaScript `Map`: a finite map that also remembers the order in which its
 * keys were first inserted. `set` on a present key replaces the value and keeps
 * the key's position; `values()` iterates in key-insertion order.
 */
module OrderedMaps {
  import opened Wrappers

  datatype OrderedMap<K, V> = OrderedMap(keys: seq<K>, entries: map<K, V>)

  /** Every key occurs once in the order, and the order lists exactly the mapped keys. */
  ghost predicate Valid<K(!new), V>(m: OrderedMap<K, V>) {
    (forall i, j :: 0 <= i < j < |m.keys| ==> m.keys[i] != m.keys[j]) &&
    (forall k :: k in m.entries <==> k in m.keys)
  }

  /** `new Map()` */
  function Empty<K(!new), V>(): (m: OrderedMap<K, V>)
    ensures Valid(m)
    ensures forall k :: Get(m, k) == None
  {
    OrderedMap([], map[])
  }

  /** `m.get(k)`, with `undefined` as `None`. */
  function Get<K(!new), V>(m: OrderedMap<K, V>, k: K): Option<V> {
    if k in m.entries then Some(m.entries[k]) else None
  }

  /** `m.set(k, v)` */
  function Set<K(!new), V>(m: OrderedMap<K, V>, k: K, v: V): (r: OrderedMap<K, V>)
    ensures Valid(m) ==> Valid(r)
    ensures Get(r, k) == Some(v)
    ensures forall k' :: k' != k ==> Get(r, k') == Get(m, k')
    ensures k in m.entries ==> r.keys == m.keys
    ensures k !in m.entries ==> r.keys == m.keys + [k]
  {
    if k in m.entries then OrderedMap(m.keys, m.entries[k := v])
    else OrderedMap(m.keys + [k], m.entries[k := v])
  }

  /** `Array.from(m.values())`: the values in key-insertion order. */
  function Values<K(!new), V>(m: OrderedMap<K, V>): (vs: seq<V>)
    requires Valid(m)
    ensures |vs| == |m.keys|
    ensures forall i :: 0 <= i < |m.keys| ==> vs[i] == m.entries[m.keys[i]]
  {
    seq(|m.keys|, i requires 0 <= i < |m.keys| => m.entries[m.keys[i]])
  }

  /** Every listed value is stored under some key, and every stored value is listed. */
  lemma ValuesAreEntries<K(!new), V>(m: OrderedMap<K, V>, v: V)
    requires Valid(m)
    ensures v in Values(m) <==> exists k :: k in m.entries && m.entries[k] == v
  {
    var vs := Values(m);
    if v in vs {
      var i :| 0 <= i < |vs| && vs[i] == v;
      assert m.keys[i] in m.entries;
    }
    if exists k :: k in m.entries && m.entries[k] == v {
      var k :| k in m.entries && m.entries[k] == v;
      var i :| 0 <= i < |m.keys| && m.keys[i] == k;
      assert vs[i] == v;
    }
  }

  /** Setting a key to the value it already has gives back the same map. */
  lemma SetUnchanged<K(!new), V>(m: OrderedMap<K, V>, k: K, v: V)
    requires Get(m, k) == Some(v)
    ensures Set(m, k, v) == m
  {
    assert m.entries[k := v] == m.entries;
  }

  /** Setting a new key lists its value after all the existing ones. */
  lemma ValuesSetNew<K(!new), V>(m: OrderedMap<K, V>, k: K, v: V)
    requires Valid(m)
    requires k !in m.entries
    ensures Values(Set(m, k, v)) == Values(m) + [v]
  {
    var r := Set(m, k, v);
    assert forall i :: 0 <= i < |m.keys| ==> m.keys[i] != k;
    assert forall i :: 0 <= i < |m.keys| ==> Values(r)[i] == Values(m)[i];
  }
}
