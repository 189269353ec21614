/** Values shared by every component of the model. */
module Prelude {

  datatype Option<+T> = None | Some(value: T)

  /** Outcome of an operation that the source ends either with a value or with a thrown error code. */
  datatype Result<+T> = Ok(value: T) | Err(code: string)

  /** `Number.MAX_SAFE_INTEGER`. */
  const MAX_SAFE_INTEGER: nat := 9007199254740991
}
