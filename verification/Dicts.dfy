/** Python dictionaries as values: a map that remembers the insertion order of its keys. */
module Dicts {
  import opened Seqs

  datatype Dict<K(==), V> = Dict(keys: seq<K>, m: map<K, V>) {
    ghost predicate Valid() {
      NoDup(keys) && (forall k | k in keys :: k in m) && (forall k | k in m :: k in keys)
    }

    function GetOr(k: K, default: V): V {
      if k in m then m[k] else default
    }

    /** d[k] = v: a new key goes last, an old key keeps its place. */
    function Put(k: K, v: V): (d: Dict<K, V>)
      ensures Valid() ==> d.Valid()
    {
      Dict(if k in m then keys else keys + [k], m[k := v])
    }
  }
}
