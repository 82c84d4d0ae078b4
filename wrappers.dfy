/** Option and Result values used wherever the source returns "maybe nothing" or raises. */
module Wrappers {

  datatype Option<+T> = None | Some(value: T)

  /** The Python exceptions the modelled code can raise. */
  datatype Exception =
    | TypeError      // e.g. `', '.join(5)` or iterating over an int
    | AttributeError // e.g. `None.rstrip("/")`

  datatype Result<+T> = Ok(value: T) | Err(error: Exception)
}
