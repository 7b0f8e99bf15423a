/** Optional values and results, shared by the parser, the evaluator and the recogniser. */
module Wrappers {

  /** A value that may be absent (the source's `undefined`, or `NaN` from a number parse). */
  datatype Option<+T> = None | Some(value: T)

  /** Either a value or an error value; the source returns a bare value or an error record. */
  datatype Result<+R, +E> = Success(value: R) | Failure(error: E)
}
