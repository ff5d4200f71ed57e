/** Result types and small notions shared by the whole model. */
module Wrappers {
  datatype Option<+T> = None | Some(value: T)

  datatype Result<+T, +E> = Ok(value: T) | Err(error: E)

  /** JavaScript's `given ?? default`. */
  function OrElse<T>(given: Option<T>, default: T): T {
    if given.Some? then given.value else default
  }

  /** A query's answer in some order: every element of the set once. */
  predicate Enumerates<T(==)>(order: seq<T>, elements: set<T>) {
    && (forall i, j | 0 <= i < j < |order| :: order[i] != order[j])
    && (forall x <- elements :: x in order) && (forall x <- order :: x in elements)
  }
}
