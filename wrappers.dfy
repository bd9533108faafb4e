/** Failure-carrying values shared by every module of the model. */
module Wrappers {

  datatype Option<+T> = None | Some(value: T)

  /** What a Python call does: return a value, or raise an exception whose
      `str()` is `error` (its message, without the exception's class). */
  datatype Outcome<+T> = Ok(value: T) | Raised(error: string)
}
