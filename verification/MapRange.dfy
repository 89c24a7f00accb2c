/** Go ranges over a map in an arbitrary order.  An operation that does so is specified for every order. */
module MapRange {

  /** `order` lists each element of `keys` once. */
  ghost predicate Enumerates<K(!new)>(order: seq<K>, keys: set<K>) {
    && (forall i, j | 0 <= i < j < |order| :: order[i] != order[j])
    && (forall k :: k in order <==> k in keys)
  }

  /** One more element visited by a loop that picks keys in any order. */
  lemma EnumeratesSnoc<K(!new)>(order: seq<K>, keys: set<K>, k: K)
    requires Enumerates(order, keys) && k !in keys
    ensures Enumerates(order + [k], keys + {k})
  {
  }

  lemma EnumeratesInit<K(!new)>(order: seq<K>, keys: set<K>)
    requires Enumerates(order, keys) && order != []
    ensures order[|order| - 1] in keys && Enumerates(order[..|order| - 1], keys - {order[|order| - 1]})
  {
  }
}
