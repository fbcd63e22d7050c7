/** Two-level maps, as the collectors keep them: per device, then per metric. */
module NestedMap {
  import opened Wrappers

  type Nested<K(==), V> = map<string, map<K, V>>

  function Get<K(==), V>(m: Nested<K, V>, outer: string, inner: K): Option<V> {
    if outer in m && inner in m[outer] then Some(m[outer][inner]) else None
  }

  /** Stores one entry, creating the inner map on first use. */
  function Put<K(==,!new), V>(m: Nested<K, V>, outer: string, inner: K, value: V): (r: Nested<K, V>)
    ensures forall a, b :: Get(r, a, b) == if a == outer && b == inner then Some(value) else Get(m, a, b)
  {
    m[outer := (if outer in m then m[outer] else map[])[inner := value]]
  }
}
