/** Plain Option and Result datatypes shared by the modules of this model. */
module Wrappers {

  /** A value that may be absent; None also stands for SQL NULL and Java null. */
  datatype Option<+T> = None | Some(value: T) {
    function GetOr(default: T): T {
      match this
      case Some(v) => v
      case None => default
    }
  }

  /** The outcome of an operation that may fail with an error value. */
  datatype Result<+T, +E> = Success(value: T) | Failure(error: E)
}
