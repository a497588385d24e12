/** Option and Result, the error-carrying values the rest of the model returns. */
module Wrappers {

  datatype Option<+T> = None | Some(value: T)

  /** A Ruby `raise` becomes `Err`, with the message the source raises. */
  datatype Result<+T> = Ok(value: T) | Err(message: string)
}
