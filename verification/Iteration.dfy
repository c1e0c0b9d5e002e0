/** Walking hash maps: in some order, each key once. */
module Iteration {
  predicate Distinct<T(==)>(s: seq<T>) {
    forall i, j | 0 <= i < j < |s| :: s[i] != s[j]
  }

  /** `order` lists each of `keys` once. */
  ghost predicate OrderOf<K(!new)>(order: seq<K>, keys: set<K>) {
    Distinct(order) && forall k :: k in order <==> k in keys
  }

  /** The order in which a hash map happens to be walked. */
  method IterationOrder<K(==, !new), V>(m: map<K, V>) returns (order: seq<K>)
    ensures OrderOf(order, m.Keys)
  {
    order := [];
    var rest := m.Keys;
    while rest != {}
      invariant Distinct(order)
      invariant forall k :: k in order || k in rest <==> k in m
      invariant forall k | k in rest :: k !in order
    {
      var k :| k in rest;
      rest := rest - {k};
      order := order + [k];
    }
  }
}
