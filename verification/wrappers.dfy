/** Failure-carrying results shared by every module of the model. */
module Wrappers {

  datatype Option<T> = None | Some(value: T)

  /** The Python exception classes the modelled code can raise or report. */
  datatype Error =
    | ValueError(message: string)
    | IndexError
    | KeyError
    | TypeError
    | AttributeError
    | IntegrityError
    | ProgrammingError
    | MilvusException
    | ValidationError(fields: seq<string>)

  datatype Result<T> = Ok(value: T) | Err(error: Error)
}
