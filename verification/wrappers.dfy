/** Failure-carrying datatypes shared by every component of the model. */
module Wrappers {

  /** A value that may be absent: Kotlin's nullable types and Rust's `Option`. */
  datatype Option<+T> = None | Some(value: T) {
    function GetOr(default: T): T {
      match this
      case Some(v) => v
      case None => default
    }
  }

  /** The outcome of an operation that may throw or return an error: Kotlin exceptions
      caught by the caller and Rust's `Result<_, String>`. */
  datatype Result<+T, +E> = Success(value: T) | Failure(error: E) {
    function ToOption(): Option<T> {
      match this
      case Success(v) => Some(v)
      case Failure(_) => None
    }
  }
}
