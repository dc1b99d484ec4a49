/** A bidirectional dictionary as the `bidict` package keeps it: a forward map
    and an inverse map that must stay mirror images of each other. */
module Bidict {

  /** `inv` is exactly `fwd` read backwards. */
  ghost predicate Mirrors<K, V>(fwd: map<K, V>, inv: map<V, K>) {
    && (forall k | k in fwd :: fwd[k] in inv && inv[fwd[k]] == k)
    && (forall v | v in inv :: inv[v] in fwd && fwd[inv[v]] == v)
  }

  /** No value is bound to two keys. */
  ghost predicate Injective<K, V>(m: map<K, V>) {
    forall k, k' | k in m && k' in m && k != k' :: m[k] != m[k']
  }

  /** A mirrored pair is a bijection between the keys and the values of `fwd`. */
  lemma MirrorIsBijection<K, V>(fwd: map<K, V>, inv: map<V, K>)
    requires Mirrors(fwd, inv)
    ensures Injective(fwd)
    ensures inv.Keys == fwd.Values && inv.Values == fwd.Keys
  {
  }

  /** `bidict[k] = v` with an unused key and an unused value. */
  lemma PutKeepsMirror<K, V>(fwd: map<K, V>, inv: map<V, K>, k: K, v: V)
    requires Mirrors(fwd, inv) && k !in fwd && v !in inv
    ensures Mirrors(fwd[k := v], inv[v := k])
  {
  }

  /** `del bidict.inverse[v]`: drops the one entry whose value is `v`, and no other. */
  lemma DeleteInverseKeepsMirror<K, V>(fwd: map<K, V>, inv: map<V, K>, v: V)
    requires Mirrors(fwd, inv) && v in inv
    ensures Mirrors(fwd - {inv[v]}, inv - {v})
    ensures forall k :: k in fwd - {inv[v]} <==> k in fwd && fwd[k] != v
    ensures |fwd - {inv[v]}| == |fwd| - 1
  {
  }

  /** The two directions always hold the same number of entries. */
  lemma {:induction false} MirrorSizes<K, V>(fwd: map<K, V>, inv: map<V, K>)
    requires Mirrors(fwd, inv)
    ensures |fwd| == |inv|
  {
    if fwd != map[] {
      var k :| k in fwd;
      DeleteInverseKeepsMirror(fwd, inv, fwd[k]);
      MirrorSizes(fwd - {k}, inv - {fwd[k]});
    }
  }
}
