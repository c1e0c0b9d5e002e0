/** Maps to sets, one way and both ways (`SetMap`, `DoubleSetMap`). */
module SetMaps {
  import opened PostBody

  // ----- one way -----

  /** The relation a map of sets stands for. */
  ghost function Pairs<K, V>(m: map<K, set<V>>): set<(K, V)> {
    set k, v | k in m && v in m[k] :: (k, v)
  }

  ghost predicate NoEmptySets<K, V>(m: map<K, set<V>>) {
    forall k | k in m :: m[k] != {}
  }

  function With<K, V>(m: map<K, set<V>>, k: K, v: V): map<K, set<V>> {
    m[k := (if k in m then m[k] else {}) + {v}]
  }

  /** A set that becomes empty goes away. */
  function Without<K, V>(m: map<K, set<V>>, k: K, v: V): map<K, set<V>> {
    if k !in m then m
    else if m[k] - {v} == {} then m - {k}
    else m[k := m[k] - {v}]
  }

  /** A set that becomes empty stays. */
  function WithoutValue<K, V>(m: map<K, set<V>>, k: K, v: V): map<K, set<V>> {
    if k in m && v in m[k] then m[k := m[k] - {v}] else m
  }

  lemma WithPairs<K, V>(m: map<K, set<V>>, k: K, v: V)
    ensures Pairs(With(m, k, v)) == Pairs(m) + {(k, v)}
    ensures NoEmptySets(m) ==> NoEmptySets(With(m, k, v))
  {
    var m' := With(m, k, v);
    forall a, b ensures (a, b) in Pairs(m') <==> (a, b) in Pairs(m) + {(k, v)} {
    }
  }

  lemma WithoutPairs<K, V>(m: map<K, set<V>>, k: K, v: V)
    ensures Pairs(Without(m, k, v)) == Pairs(m) - {(k, v)}
    ensures NoEmptySets(m) ==> NoEmptySets(Without(m, k, v))
  {
    var m' := Without(m, k, v);
    forall a, b ensures (a, b) in Pairs(m') <==> (a, b) in Pairs(m) - {(k, v)} {
      if a == k && k in m && m[k] - {v} == {} && b in m[k] {
        assert b !in m[k] - {v};
      }
    }
  }

  /** Without empty sets the relation determines the map. */
  lemma PairsDetermine<K, V>(m: map<K, set<V>>, n: map<K, set<V>>)
    requires NoEmptySets(m) && NoEmptySets(n) && Pairs(m) == Pairs(n)
    ensures m == n
  {
    KeysWithin(m, n);
    KeysWithin(n, m);
    forall k | k in m ensures m[k] == n[k] {
      forall v ensures v in m[k] <==> v in n[k] {
        assert v in m[k] <==> (k, v) in Pairs(m);
        assert v in n[k] <==> (k, v) in Pairs(n);
      }
    }
  }

  lemma KeysWithin<K, V>(m: map<K, set<V>>, n: map<K, set<V>>)
    requires NoEmptySets(m) && Pairs(m) == Pairs(n)
    ensures forall k | k in m :: k in n
  {
    forall k | k in m ensures k in n {
      var v :| v in m[k];
      assert (k, v) in Pairs(m);
    }
  }

  class SetMap<K(==), V(==)> {
    var sets: map<K, set<V>>

    constructor ()
      ensures sets == map[]
    {
      sets := map[];
    }

    method Insert(k: K, v: V)
      modifies this
      ensures sets == With(old(sets), k, v)
      ensures Pairs(sets) == old(Pairs(sets)) + {(k, v)}
    {
      WithPairs(sets, k, v);
      if k !in sets {
        sets := sets[k := {}];
      }
      sets := sets[k := sets[k] + {v}];
    }

    method Remove(k: K, v: V) returns (removed: bool)
      modifies this
      ensures sets == Without(old(sets), k, v)
      ensures Pairs(sets) == old(Pairs(sets)) - {(k, v)}
      ensures removed <==> (k, v) in old(Pairs(sets))
    {
      WithoutPairs(sets, k, v);
      removed := false;
      if k in sets {
        removed := v in sets[k];
        sets := sets[k := sets[k] - {v}];
        if sets[k] == {} {
          sets := sets - {k};
        }
      }
    }

    method Get(k: K) returns (r: Option<set<V>>)
      ensures r.Some? <==> k in sets
      ensures r.Some? ==> forall v :: v in r.value <==> (k, v) in Pairs(sets)
    {
      r := if k in sets then Some(sets[k]) else None;
    }
  }

  // ----- both ways -----

  ghost predicate Mirrors<K, V>(m: map<K, set<V>>, n: map<V, set<K>>) {
    && (forall p | p in Pairs(m) :: (p.1, p.0) in Pairs(n))
    && (forall p | p in Pairs(n) :: (p.1, p.0) in Pairs(m))
  }

  lemma BothWays<K, V>(m: map<K, set<V>>, n: map<V, set<K>>)
    requires Mirrors(m, n)
    ensures forall k, v :: (v, k) in Pairs(n) <==> (k, v) in Pairs(m)
  {
    forall k, v ensures (v, k) in Pairs(n) <==> (k, v) in Pairs(m) {
      if (v, k) in Pairs(n) {
        assert ((v, k).1, (v, k).0) in Pairs(m);
      }
      if (k, v) in Pairs(m) {
        assert ((k, v).1, (k, v).0) in Pairs(n);
      }
    }
  }

  lemma RowTaken<K, V>(m: map<K, set<V>>, k: K)
    requires k in m
    ensures forall a, b :: (a, b) in Pairs(m) <==> (a, b) in Pairs(m - {k}) || (a == k && b in m[k])
  {
  }

  class DoubleSetMap<K(==), V(==)> {
    const byKey: SetMap<K, V>
    const byValue: SetMap<V, K>

    /** Both sides hold the same relation; only the side by key may hold empty sets. */
    ghost predicate Valid()
      reads this, byKey, byValue
    {
      && (byKey as object) != (byValue as object)
      && Mirrors(byKey.sets, byValue.sets)
      && NoEmptySets(byValue.sets)
    }

    ghost function Relation(): set<(K, V)>
      reads this, byKey
    {
      Pairs(byKey.sets)
    }

    constructor ()
      ensures Valid() && fresh(byKey) && fresh(byValue) && Relation() == {}
    {
      byKey := new SetMap();
      byValue := new SetMap();
    }

    method Insert(k: K, v: V)
      requires Valid()
      modifies byKey, byValue
      ensures Valid() && Relation() == old(Relation()) + {(k, v)}
    {
      WithPairs(byValue.sets, v, k);
      byKey.Insert(k, v);
      byValue.Insert(v, k);
    }

    method GetByKey(k: K) returns (r: Option<set<V>>)
      requires Valid()
      ensures forall v :: (r.Some? && v in r.value) <==> (k, v) in Relation()
    {
      r := byKey.Get(k);
    }

    method GetByValue(v: V) returns (r: Option<set<K>>)
      requires Valid()
      ensures forall k :: (r.Some? && k in r.value) <==> (k, v) in Relation()
      ensures r.Some? ==> r.value != {}
    {
      r := byValue.Get(v);
      if r.Some? {
        assert byValue.sets[v] != {};
        var k :| k in byValue.sets[v];
        assert (v, k) in Pairs(byValue.sets);
      }
    }

    method RemoveByKey(k: K)
      requires Valid()
      modifies byKey, byValue
      ensures Valid() && k !in byKey.sets
      ensures Relation() == set p | p in old(Relation()) && p.0 != k
    {
      if k in byKey.sets {
        BothWays(byKey.sets, byValue.sets);
        RowTaken(byKey.sets, k);
        var rest := byKey.sets[k];
        byKey.sets := byKey.sets - {k};
        while rest != {}
          invariant (byKey as object) != (byValue as object) && byKey.sets == old(byKey.sets) - {k}
          invariant NoEmptySets(byValue.sets)
          invariant forall a, b :: (b, a) in Pairs(byValue.sets) <==> (a, b) in Pairs(byKey.sets) || (a == k && b in rest)
          decreases |rest|
        {
          var v :| v in rest;
          rest := rest - {v};
          WithoutPairs(byValue.sets, v, k);
          var _ := byValue.Remove(v, k);
        }
      }
    }

    method RemoveByValue(v: V)
      requires Valid()
      modifies byKey, byValue
      ensures Valid() && v !in byValue.sets
      ensures Relation() == set p | p in old(Relation()) && p.1 != v
    {
      if v in byValue.sets {
        BothWays(byKey.sets, byValue.sets);
        RowTaken(byValue.sets, v);
        var rest := byValue.sets[v];
        byValue.sets := byValue.sets - {v};
        while rest != {}
          invariant (byKey as object) != (byValue as object) && byValue.sets == old(byValue.sets) - {v}
          invariant forall a, b :: (a, b) in Pairs(byKey.sets) <==> (b, a) in Pairs(byValue.sets) || (b == v && a in rest)
          decreases |rest|
        {
          var k :| k in rest;
          rest := rest - {k};
          var _ := byKey.Remove(k, v);
        }
      }
    }

    /** Goes past the cleanup of the side by key: the last value of a key leaves an empty set. */
    method RemoveByKeyValue(k: K, v: V)
      requires Valid()
      modifies byKey, byValue
      ensures Valid() && Relation() == old(Relation()) - {(k, v)}
      ensures byKey.sets == WithoutValue(old(byKey.sets), k, v)
    {
      if k in byKey.sets && v in byKey.sets[k] {
        ghost var before := byKey.sets;
        byKey.sets := byKey.sets[k := byKey.sets[k] - {v}];
        WithoutPairs(byValue.sets, v, k);
        var _ := byValue.Remove(v, k);
        forall a, b ensures (a, b) in Pairs(byKey.sets) <==> (a, b) in Pairs(before) && (a, b) != (k, v) {
        }
      }
    }
  }

  /** Removal by pair keeps the side by key free of empty sets exactly if the key had another value
      or did not have this one. */
  lemma EmptySetLeft<K, V>(m: map<K, set<V>>, k: K, v: V)
    requires NoEmptySets(m)
    ensures NoEmptySets(WithoutValue(m, k, v)) <==> !(k in m && m[k] == {v})
  {
    if k in m && v in m[k] {
      var m' := m[k := m[k] - {v}];
      if m[k] == {v} {
        assert m'[k] == {};
      } else {
        var w :| w in m[k] && w != v;
        assert w in m'[k];
      }
    }
  }
}
