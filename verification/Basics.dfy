/** What several modules need. */
module Basics {

  datatype Option<T> = None | Some(value: T)

  ghost predicate Distinct<T>(xs: seq<T>) {
    forall i, j :: 0 <= i < j < |xs| ==> xs[i] != xs[j]
  }

  /** A list of mappings has the key. */
  ghost predicate Has<K, D>(m: seq<(K, D)>, k: K) {
    exists j :: 0 <= j < |m| && m[j].0 == k
  }
}
