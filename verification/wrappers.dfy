/** Failure-carrying datatypes used across the model: Rust's `Option` and
    `Result`, written out so that every error path of the broker can be
    returned as a value instead of being excluded by a precondition. */
module Wrappers {

  datatype Option<+T> = None | Some(value: T) {
    /** Rust's `Option::unwrap_or` / `map_or` default. */
    function GetOr(default: T): T
    {
      match this
      case Some(v) => v
      case None => default
    }
  }

  datatype Result<+R, +E> = Ok(value: R) | Err(error: E)
}
