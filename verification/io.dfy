/** The slice of `std::io` the explorer's operations report through. */
module Io {

  /** The one error kind the explorer produces itself. Errors reported by
      the operating system's own calls are outside this model. */
  datatype ErrorKind = InvalidInput

  /** `io::Result<T>`. */
  datatype Result<+T> = Ok(value: T) | Err(kind: ErrorKind)
}
