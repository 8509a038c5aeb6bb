/** Nullable references and typed failures, shared by every module of the model. */
module Wrappers {

  /** A C# reference that may be null: `None` is null. */
  datatype Option<+T> = None | Some(value: T)

  /** The outcome of a call that either returns a value or fails with a typed error. */
  datatype Result<+T, +E> = Ok(value: T) | Err(error: E)
}
