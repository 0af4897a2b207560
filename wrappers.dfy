/** Failure-carrying results shared by the drawdown and tail-risk modules. */
module Wrappers {

  /** A value that may be absent: numpy's `nan` results and Python exceptions become `None`. */
  datatype Option<+T> = None | Some(value: T)

  /** A computed value, or the error that the computation raises. */
  datatype Result<+R, +E> = Success(value: R) | Failure(error: E)
}
