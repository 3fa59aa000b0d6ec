/** Option and Result, the two failure-carrying shapes the capture session needs:
    a landmark snapshot that may be absent, and an operation that may be refused. */
module Wrappers {

  /** A value that may be missing, as the detector's "latest hand or null". */
  datatype Option<+T> = None | Some(value: T)

  /** Either a computed value or the reason the operation refused to run. */
  datatype Result<+T, +E> = Success(value: T) | Failure(error: E)
}
