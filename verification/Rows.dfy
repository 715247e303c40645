/** Saying what a statement did to a table, row by row. */
module Rows {

  /** The table has row v at k and is otherwise as it was. */
  predicate Wrote<K(==), V(==)>(before: map<K, V>, after: map<K, V>, k: K, v: V) {
    && after.Keys == before.Keys + {k} && after[k] == v
    && forall x :: x in before && x != k ==> after[x] == before[x]
  }
}
