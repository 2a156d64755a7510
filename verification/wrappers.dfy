/** Option and Result values shared by every module of the model, and the
    exceptions the modelled code can raise. */
module Wrappers {

  datatype Option<+T> = None | Some(value: T)

  /** The Python exceptions that reach a caller of the modelled code. */
  datatype Error =
    | KeyError(key: string)
    | IndexError(index: int)
    | AttributeError(attribute: string)
    | RuntimeError(reason: string)
    | TypeError(reason: string)
    | DecodeError

  /** A value, or the exception raised instead of returning one. */
  datatype Result<+T> = Ok(value: T) | Err(error: Error)
}
