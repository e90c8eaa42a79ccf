/**
 * A JavaScript `Map` with numeric keys: a finite map together with the order in which its keys
 * were first inserted. `Array.from(m.values())` lists the values in that order,
 * and `m.set(k, v)` on a key already present keeps the key's position.
 */
module OrderedMaps {

  datatype OrderedMap<V> = OrderedMap(entries: map<nat, V>, keys: seq<nat>)

  /** The key sequence lists every key of the map exactly once. */
  ghost predicate Valid<V>(m: OrderedMap<V>)
  {
    && (forall k :: k in m.entries <==> k in m.keys)
    && (forall i, j :: 0 <= i < j < |m.keys| ==> m.keys[i] != m.keys[j])
  }

  /** `new Map()`. */
  function Empty<V>(): (m: OrderedMap<V>)
    ensures Valid(m) && m.entries == map[]
  {
    OrderedMap(map[], [])
  }

  /** `Array.from(m.values())`: the values in key-insertion order. */
  function Values<V>(m: OrderedMap<V>): (vs: seq<V>)
    requires Valid(m)
    ensures |vs| == |m.keys|
  {
    seq(|m.keys|, i requires 0 <= i < |m.keys| => m.entries[m.keys[i]])
  }

  /** `m.set(k, v)`. */
  function Set<V>(m: OrderedMap<V>, k: nat, v: V): (r: OrderedMap<V>)
    requires Valid(m)
    ensures Valid(r)
    ensures r.entries == m.entries[k := v]
  {
    OrderedMap(m.entries[k := v], if k in m.entries then m.keys else m.keys + [k])
  }

  /** Every listed value is the value of some key in the map. */
  lemma ValuesAreEntries<V>(m: OrderedMap<V>, i: nat)
    requires Valid(m) && i < |m.keys|
    ensures m.keys[i] in m.entries && Values(m)[i] == m.entries[m.keys[i]]
  {
  }

  /** Every value in the map is listed by `Values`. */
  lemma EntriesAreListed<V>(m: OrderedMap<V>, k: nat)
    requires Valid(m) && k in m.entries
    ensures exists i :: 0 <= i < |m.keys| && m.keys[i] == k && Values(m)[i] == m.entries[k]
  {
  }

  /** `set` on a key already present overwrites its value in place: order and length are kept. */
  lemma SetExistingValues<V>(m: OrderedMap<V>, k: nat, v: V)
    requires Valid(m) && k in m.entries
    ensures Set(m, k, v).keys == m.keys
    ensures |Values(Set(m, k, v))| == |Values(m)|
    ensures forall i :: 0 <= i < |m.keys| ==>
      Values(Set(m, k, v))[i] == if m.keys[i] == k then v else Values(m)[i]
  {
  }

  /** `set` on a new key appends its value at the end. */
  lemma SetNewValues<V>(m: OrderedMap<V>, k: nat, v: V)
    requires Valid(m) && k !in m.entries
    ensures Set(m, k, v).keys == m.keys + [k]
    ensures Values(Set(m, k, v)) == Values(m) + [v]
  {
    var r := Set(m, k, v);
    assert forall i :: 0 <= i < |m.keys| ==> r.keys[i] == m.keys[i] && m.keys[i] != k;
  }
}
