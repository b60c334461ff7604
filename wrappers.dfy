/** Option and Result, the values the loader returns instead of a null
    reference or a thrown Error. */
module Wrappers {

  /** A value that may be absent, like a JavaScript `null`. */
  datatype Option<+T> = None | Some(value: T)

  /** Either a decoded value or the error that stopped the decode. */
  datatype Result<+T, +E> = Success(value: T) | Failure(error: E)
}
