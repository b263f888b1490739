/** Option and Result values, and the Python exceptions the modelled code can raise. */
module Wrappers {

  datatype Option<+T> = None | Some(value: T)

  datatype Result<+T, +E> = Success(value: T) | Failure(error: E)

  /** The exceptions raised by the modelled code paths. */
  datatype Exception =
    | IndexError      // subscript outside a sequence
    | KeyError        // dictionary lookup of a missing key
    | AttributeError  // attribute read on an object that lacks it
    | TypeError       // subscript of None
}
