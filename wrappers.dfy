// Optional values and results shared by every module of the model.
module Wrappers {
  datatype Option<T> = None | Some(value: T)

  /** A value, or the message of the runtime_error that replaced it. */
  datatype Result<T> = Ok(value: T) | Fail(error: string)
}
