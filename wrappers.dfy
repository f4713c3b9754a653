/** Failure-carrying values shared by every module of the model: Rust's
    `Option` and `Result`. A Rust panic is modelled as a precondition the
    caller must meet; a returned error is modelled with these types. */
module Wrappers {

  datatype Option<+T> = None | Some(value: T)

  datatype Result<+T, +E> = Ok(value: T) | Err(error: E)

  /** The value of an `Option` with a fallback, like Rust's `unwrap_or`. */
  function UnwrapOr<T>(o: Option<T>, default: T): (r: T)
    ensures o.Some? ==> r == o.value
    ensures o.None? ==> r == default
  {
    match o
    case Some(v) => v
    case None => default
  }
}
