/** The optional value used wherever the application returns None or reads
    a dictionary entry that may be missing. */
module Wrappers {

  datatype Option<+T> = None | Some(value: T) {

    /** The value, or a default when there is none. */
    function GetOr(default: T): T {
      match this
      case Some(v) => v
      case None => default
    }
  }

  /** Reading a map the way Python's dict.get does: absent keys give None. */
  function Lookup<K, V(==)>(m: map<K, V>, k: K): (r: Option<V>)
    ensures r.Some? ==> r.value in m.Values
  {
    if k in m then Some(m[k]) else None
  }

  /** After `d[k] = v`, reading `k` gives `v` and every other key reads as
      before. */
  lemma LookupUpdate<K, V>(m: map<K, V>, k: K, v: V, other: K)
    ensures Lookup(m[k := v], k) == Some(v)
    ensures other != k ==> Lookup(m[k := v], other) == Lookup(m, other)
  {
  }

  /** After `d.pop(k, None)`, reading `k` gives None and every other key
      reads as before. */
  lemma LookupRemove<K, V>(m: map<K, V>, k: K, other: K)
    ensures Lookup(m - {k}, k) == None
    ensures other != k ==> Lookup(m - {k}, other) == Lookup(m, other)
  {
  }
}
