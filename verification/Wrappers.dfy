/** The absent-value and refused-operation results shared by the models. */
module Wrappers {

  datatype Option<+T> = None | Some(value: T)

  /** A raised error ends an operation; `Refused` carries the source's error text or code. */
  datatype Result<+T> = Ok(value: T) | Refused(error: string)
}
