/** Optional values, results and the one error kind the library raises. */
module Wrappers {

  /** Stands in for a reference that may be null. */
  datatype Option<+T> = None | Some(value: T)

  /** The library's only failure: a required argument was null. The payload is
      the parameter name the exception reports. */
  datatype ArgumentError = ArgumentNull(paramName: string)

  /** The outcome of an operation that may throw an ArgumentError. */
  datatype Result<+R> = Ok(value: R) | Err(error: ArgumentError)
}
