/** Python's `dict`, which remembers the order in which keys were first inserted.
    Both dictionaries of the collector depend on that order: `word_freq`, whose order breaks
    frequency ties, and `website_content`, whose values are read in order. */
module OrderedMaps {

  datatype OrderedMap<K, V> = OrderedMap(keys: seq<K>, entries: map<K, V>) {

    /** Every key once, and exactly the keys of `entries`. */
    ghost predicate Valid() {
      && (forall i, j :: 0 <= i < j < |keys| ==> keys[i] != keys[j])
      && entries.Keys == set k | k in keys
    }

    /** `d.get(k, default)`. */
    function Get(k: K, default: V): (v: V)
      ensures k in entries ==> v == entries[k]
      ensures k !in entries ==> v == default
    {
      if k in entries then entries[k] else default
    }

    /** `d[k] = v`: an existing key keeps its place, a new key goes last. */
    function Put(k: K, v: V): (r: OrderedMap<K, V>)
      requires Valid()
      ensures r.Valid()
      ensures k in r.entries && r.entries[k] == v
      ensures r.entries.Keys == entries.Keys + {k}
      ensures forall j :: j in entries && j != k ==> r.entries[j] == entries[j]
      ensures keys <= r.keys
      ensures |r.keys| == if k in entries then |keys| else |keys| + 1
    {
      OrderedMap(if k in entries then keys else keys + [k], entries[k := v])
    }

    /** `d.values()`, in key order. */
    function Values(): seq<V>
      requires Valid()
    {
      seq(|keys|, i requires 0 <= i < |keys| => entries[keys[i]])
    }

    /** `d.items()`, in key order. */
    function Items(): seq<(K, V)>
      requires Valid()
    {
      seq(|keys|, i requires 0 <= i < |keys| => (keys[i], entries[keys[i]]))
    }
  }

  /** `{}`. */
  function Empty<K, V>(): (m: OrderedMap<K, V>)
    ensures m.Valid() && m.keys == [] && m.entries == map[]
  {
    OrderedMap([], map[])
  }
}
