/** Optional values and results shared by the parser, the pipeline and the evaluator. */
module Wrappers {

  /** Ruby's `nil` or a value. */
  datatype Option<+T> = None | Some(value: T)

  /** A value, or the exception that was raised instead. */
  datatype Result<+R, +E> = Success(value: R) | Failure(error: E)
}
