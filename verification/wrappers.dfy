/** Failure-carrying result types shared by the model. */
module Wrappers {

  /** An optional value; `None` stands for an absent JavaScript argument. */
  datatype Option<+T> = None | Some(value: T)

  /** The outcome of an operation that may throw. */
  datatype Result<+T, +E> = Ok(value: T) | Err(error: E)
}
