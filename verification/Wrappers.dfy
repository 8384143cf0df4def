/** A value that may be missing, and maps compared at one key. */
module Wrappers {
  datatype Option<+T> = None | Some(value: T)

  /** The maps agree on `k`: both lack it or both have it with one value. */
  predicate SameAt<K, V(==)>(m: map<K, V>, m': map<K, V>, k: K) {
    (k in m <==> k in m') && (k in m ==> m[k] == m'[k])
  }
}
