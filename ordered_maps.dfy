/** Python dictionaries keyed by strings, which remember the order in which keys were first inserted. */
module OrderedMaps {

  datatype OrderedMap<V> = OrderedMap(keys: seq<string>, values: map<string, V>)

  /** The keys are listed once each, and they are exactly the keys of the map. */
  ghost predicate WellFormed<V>(d: OrderedMap<V>)
  {
    && (forall i, j | 0 <= i < j < |d.keys| :: d.keys[i] != d.keys[j])
    && (forall k :: k in d.values <==> k in d.keys)
  }

  function Empty<V>(): (d: OrderedMap<V>)
    ensures WellFormed(d)
  {
    OrderedMap([], map[])
  }

  /** `d[k] = v`: a new key goes to the end; an existing key keeps its place and gets the new value. */
  function Put<V>(d: OrderedMap<V>, k: string, v: V): (r: OrderedMap<V>)
    requires WellFormed(d)
    ensures WellFormed(r)
    ensures k in r.values && r.values[k] == v
    ensures forall k' | k' != k :: (k' in r.values <==> k' in d.values) && (k' in d.values ==> r.values[k'] == d.values[k'])
    ensures r.keys == if k in d.values then d.keys else d.keys + [k]
  {
    OrderedMap(if k in d.values then d.keys else d.keys + [k], d.values[k := v])
  }

  /** Storing under a key twice keeps the place of the first store and the value of the second. */
  lemma PutOverwrite<V>(d: OrderedMap<V>, k: string, v: V, w: V)
    requires WellFormed(d)
    ensures var d' := Put(d, k, v); OrderedMap(d'.keys, d'.values[k := w]) == Put(d, k, w)
  {
    assert d.values[k := v][k := w] == d.values[k := w];
  }
}
