/** Watch requests as an index from what is watched to who watches it. */
module WatchIndexes {
  function Watchers<K, C>(index: map<K, set<C>>, k: K): set<C>
  {
    if k in index then index[k] else {}
  }

  function Insert<K, C>(index: map<K, set<C>>, c: C, k: K): map<K, set<C>>
  {
    index[k := Watchers(index, k) + {c}]
  }

  /** A key whose last watcher goes is removed. */
  function Delete<K, C>(index: map<K, set<C>>, c: C, k: K): map<K, set<C>>
  {
    if k !in index then index
    else if index[k] - {c} == {} then index - {k}
    else index[k := index[k] - {c}]
  }

  /** The index holds exactly the pairs, and no key without a watcher. */
  ghost predicate Mirrors<K, C>(index: map<K, set<C>>, pairs: set<(C, K)>)
  {
    && (forall k :: k in index ==> index[k] != {})
    && (forall p :: p in pairs ==> p.1 in index && p.0 in index[p.1])
    && (forall k, c :: k in index && c in index[k] ==> (c, k) in pairs)
  }

  lemma InsertMirrors<K, C>(index: map<K, set<C>>, pairs: set<(C, K)>, c: C, k: K)
    requires Mirrors(index, pairs)
    ensures Mirrors(Insert(index, c, k), pairs + {(c, k)})
  {
  }

  lemma DeleteMirrors<K, C>(index: map<K, set<C>>, pairs: set<(C, K)>, c: C, k: K)
    requires Mirrors(index, pairs)
    ensures Mirrors(Delete(index, c, k), pairs - {(c, k)})
  {
    var after := Delete(index, c, k);
    forall p | p in pairs - {(c, k)}
      ensures p.1 in after && p.0 in after[p.1]
    {
      assert p == (p.0, p.1) && p.0 in index[p.1];
      if p.1 == k {
        assert p.0 in index[k] - {c};
      }
    }
    forall k', c' | k' in after && c' in after[k']
      ensures (c', k') in pairs - {(c, k)}
    {
      assert c' in index[k'];
    }
  }
}
