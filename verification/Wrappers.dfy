/** The two result datatypes the other modules share. */
module Wrappers {

  /** A value, or its absence: a nil pointer, a missing entry, an error whose text does not matter. */
  datatype Option<+T> = None | Some(value: T)

  /** A value, or the error that replaced it. */
  datatype Result<+T, +E> = Success(value: T) | Failure(error: E)
}
