/** Failure-compatible Option and Result datatypes, with the few combinators of
    Rust's `Option` and `Result` that the editor module chains together. */
module Wrappers {

  datatype Option<T> = None | Some(value: T) {

    predicate IsFailure() {
      None?
    }

    function PropagateFailure<U>(): Option<U>
      requires None?
    {
      None
    }

    function Extract(): T
      requires Some?
    {
      value
    }

    /** Rust's `Option::ok_or`: the value if present, otherwise the given error. */
    function OkOr<E>(error: E): Result<T, E> {
      match this
      case Some(v) => Ok(v)
      case None => Err(error)
    }
  }

  datatype Result<T, E> = Ok(value: T) | Err(error: E) {

    predicate IsFailure() {
      Err?
    }

    function PropagateFailure<U>(): Result<U, E>
      requires Err?
    {
      Err(error)
    }

    function Extract(): T
      requires Ok?
    {
      value
    }

    /** Rust's `Result::or_else`: keep a success, otherwise try the alternative. */
    function OrElse<F>(alternative: E -> Result<T, F>): Result<T, F> {
      match this
      case Ok(v) => Ok(v)
      case Err(e) => alternative(e)
    }

    /** Rust's `Result::map_err`: keep a success, otherwise convert the error. */
    function MapErr<F>(convert: E -> F): Result<T, F> {
      match this
      case Ok(v) => Ok(v)
      case Err(e) => Err(convert(e))
    }
  }
}
