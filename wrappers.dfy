/** Result types shared by every module of the model. */
module Wrappers {

  /** A value that may be absent (the TypeScript `T | null`). */
  datatype Option<+T> = None | Some(value: T)

  /** The outcome of an operation that produces a value or an error message
      (a thrown `Error`, or a tool's `{ ok: false, error }` record). */
  datatype Result<+T> = Ok(value: T) | Err(error: string)

  /** The outcome of an operation that produces no value. */
  datatype Outcome = Pass | Fail(error: string)
}
