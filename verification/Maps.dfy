/** Maps that are updated one key at a time, and the sweep loop that deletes entries from one. */
module Maps {

  lemma UpdateTwice<K, V>(m: map<K, V>, k: K, v: V, v': V)
    ensures m[k := v][k := v'] == m[k := v']
  {
  }

  lemma RemoveUpdated<K, V>(m: map<K, V>, k: K, v: V)
    ensures m[k := v] - {k} == m - {k}
  {
  }

  /** The entries whose value passes the test. */
  function Retain<K, V>(m: map<K, V>, keep: V -> bool): map<K, V> {
    map k | k in m && keep(m[k]) :: m[k]
  }

  /** The same in the middle of the loop, when the keys in todo have not been visited. */
  ghost function Swept<K, V>(m: map<K, V>, keep: V -> bool, todo: set<K>): map<K, V> {
    map k | k in m && (k in todo || keep(m[k])) :: m[k]
  }

  lemma SweptEnds<K, V>(m: map<K, V>, keep: V -> bool)
    ensures Swept(m, keep, m.Keys) == m && Swept(m, keep, {}) == Retain(m, keep)
  {
  }

  lemma SweptStep<K, V>(m: map<K, V>, keep: V -> bool, todo: set<K>, k: K)
    requires k in todo && k in m
    ensures k in Swept(m, keep, todo) && Swept(m, keep, todo)[k] == m[k]
    ensures Swept(m, keep, todo - {k}) == if keep(m[k]) then Swept(m, keep, todo) else Swept(m, keep, todo) - {k}
  {
  }
}
