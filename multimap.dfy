/** A multimap that keeps, for every key, the values put under it in the order they were put. */
module MultiMaps {

  /**
   The values stored under `key`, or none. In a map without empty groups, there
   are none exactly when the key is absent.
   */
  function Get<K, V>(m: map<K, seq<V>>, key: K): (r: seq<V>)
    ensures (forall k :: k in m ==> m[k] != []) ==> (r == [] <==> key !in m)
  {
    if key in m then m[key] else []
  }

  class MultiMap<K(==), V> {
    var groups: map<K, seq<V>>

    /** A key is only ever present because a value was put under it. */
    ghost predicate Valid()
      reads this
    {
      forall k :: k in groups ==> groups[k] != []
    }

    constructor Create()
      ensures Valid() && groups == map[]
    {
      groups := map[];
    }

    /** Appends `value` to the values under `key`, creating the group when the key is new. */
    method PutValue(key: K, value: V)
      requires Valid()
      modifies this
      ensures Valid()
      ensures groups == old(groups)[key := Get(old(groups), key) + [value]]
    {
      groups := groups[key := Get(groups, key) + [value]];
    }
  }

}
