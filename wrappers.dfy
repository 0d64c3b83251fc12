/** Nullable values and results that may carry an error. */
module Wrappers {

  /** A column value that pandas may hold as null (NaN/None). */
  datatype Option<+T> = None | Some(value: T)

  /** The outcome of an operation that may raise. */
  datatype Result<+R, +E> = Success(value: R) | Failure(error: E)
}
