/**
 * Optional values and error results, the model's stand-ins for pandas' NaN and Python's
 * exceptions; and the one list property several modules share.
 */
module Wrappers {

  /** A possibly missing value: None plays the part of a NaN cell. */
  datatype Option<+T> = None | Some(value: T)

  /** The outcome of an operation that can raise. */
  datatype Result<+T, +E> = Success(value: T) | Failure(error: E)

  /** No element occurs twice. */
  predicate Distinct<T(==)>(s: seq<T>) {
    forall i, j :: 0 <= i < j < |s| ==> s[i] != s[j]
  }
}
