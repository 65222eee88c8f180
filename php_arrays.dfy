/** A PHP array with string keys, which remembers the order its keys were
    first inserted in. */
module PhpArrays {
  import StringOrder

  predicate Distinct(keys: seq<string>) {
    forall i, j | 0 <= i < j < |keys| :: keys[i] != keys[j]
  }

  datatype OMap<V> = OMap(keys: seq<string>, vals: map<string, V>) {

    /** Every key occurs once in `keys`, and `keys` lists exactly the keys of `vals`. */
    ghost predicate Valid() {
      Distinct(keys) && forall k :: k in vals <==> k in keys
    }

    /** `$a[$k] = $v`: an existing key keeps its place, a new one goes last. */
    function Put(k: string, v: V): (r: OMap<V>)
      ensures r.vals == vals[k := v]
      ensures Valid() ==> r.Valid()
      ensures r.keys == if k in vals then keys else keys + [k]
    {
      if k in vals then OMap(keys, vals[k := v]) else OMap(keys + [k], vals[k := v])
    }

    /** `ksort($a)`: the same entries, keys in increasing order. */
    function KSort(): (r: OMap<V>)
      requires Valid()
      ensures r.Valid() && r.vals == vals
      ensures forall i, j | 0 <= i < j < |r.keys| :: StringOrder.Less(r.keys[i], r.keys[j])
    {
      var sorted := StringOrder.Sort(keys);
      SortedKeys(keys, sorted);
      SameKeysValid(keys, sorted, vals);
      OMap(sorted, vals)
    }
  }

  lemma SortedKeys(keys: seq<string>, sorted: seq<string>)
    requires Distinct(keys) && sorted == StringOrder.Sort(keys)
    ensures Distinct(sorted)
    ensures forall k :: k in keys <==> k in sorted
    ensures forall i, j | 0 <= i < j < |sorted| :: StringOrder.Less(sorted[i], sorted[j])
  {
    StringOrder.SortKeepsDistinct(keys, sorted);
    forall i, j | 0 <= i < j < |sorted| ensures sorted[i] != sorted[j] {
      StringOrder.LessIrreflexive(sorted[i]);
    }
    forall k ensures k in keys <==> k in sorted {
      assert k in keys <==> k in multiset(keys);
      assert k in sorted <==> k in multiset(sorted);
    }
  }

  /** Reordering the keys of a valid array, without losing or repeating one, keeps it valid. */
  lemma SameKeysValid<V>(keys: seq<string>, reordered: seq<string>, vals: map<string, V>)
    requires OMap(keys, vals).Valid()
    requires Distinct(reordered) && forall k :: k in keys <==> k in reordered
    ensures OMap(reordered, vals).Valid()
  {
  }

  function Empty<V>(): (r: OMap<V>)
    ensures r.Valid() && r.keys == [] && r.vals == map[]
  {
    OMap([], map[])
  }
}
