/** The Option and Result types shared by every module of the model. */
module Wrappers {

  datatype Option<+T> = None | Some(value: T)

  /** The outcome of an operation that may raise: the source's exceptions become `Err`. */
  datatype Result<+T> = Ok(value: T) | Err(msg: string)
}
