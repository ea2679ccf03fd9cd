/** The Python `dict` from participant name to record: a finite map together
    with the insertion order that `keys()`, `items()` and `list(d)` follow. */
module Dicts {
  import opened Common

  datatype Dict<V> = Dict(order: seq<string>, entries: map<string, V>) {

    /** The ordered keys are exactly the map's keys, each once. */
    ghost predicate Valid() {
      && NoDup(order)
      && (forall k :: k in order ==> k in entries)
      && (forall k :: k in entries ==> k in order)
    }

    /** `d[k] = v`: an existing key keeps its place, a new key goes last. */
    function Put(k: string, v: V): (d: Dict<V>)
      requires Valid()
      ensures d.Valid()
      ensures d.entries == entries[k := v]
      ensures d.order == if k in entries then order else order + [k]
    {
      if k in entries then Dict(order, entries[k := v])
      else
        var o := order + [k];
        assert NoDup(o) by {
          forall i, j | 0 <= i < j < |o| ensures o[i] != o[j] {
            if j == |order| { assert o[i] in order; }
          }
        }
        Dict(o, entries[k := v])
    }

    /** `del d[k]`: the key leaves both the map and the order. */
    function Del(k: string): (d: Dict<V>)
      requires Valid()
      ensures d.Valid()
      ensures d.entries == entries - {k}
      ensures d.order == Without(order, k)
    {
      WithoutKeepsNoDup(order, k);
      Dict(Without(order, k), entries - {k})
    }
  }

  /** `{}` */
  function Empty<V>(): (d: Dict<V>)
    ensures d.Valid() && d.order == [] && d.entries == map[]
  {
    Dict([], map[])
  }

  /** Inserting a fresh key and deleting it again restores the dict,
      order included. */
  lemma PutThenDelFresh<V>(d: Dict<V>, k: string, v: V)
    requires d.Valid() && k !in d.entries
    ensures d.Put(k, v).Del(k) == d
  {
    assert k !in d.order;
    WithoutAppended(d.order, k);
    assert d.entries[k := v] - {k} == d.entries;
  }

  /** Updating values in place, as `d[k].wins += 1` does, keeps a dict well
      formed as long as the set of keys stays the same. */
  lemma SameKeysValid<V>(d: Dict<V>, m: map<string, V>)
    requires d.Valid() && m.Keys == d.entries.Keys
    ensures Dict(d.order, m).Valid()
  {
    assert forall k :: k in m <==> k in d.entries;
  }
}
