/** Option and Result: the error paths of the workload engine (a `log.Fatal`,
    a runtime panic) are returned as values instead of being excluded by
    preconditions. */
module Wrappers {

  datatype Option<+T> = None | Some(value: T)

  datatype Result<+T, +E> = Success(value: T) | Failure(error: E)
}
