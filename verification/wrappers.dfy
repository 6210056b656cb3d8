/** Failure-carrying wrappers used for the results of the orchestrator
    client, the metric-config parser and the collector factory. */
module Wrappers {

  /** An error value, standing for Go's `error`; only its presence matters. */
  datatype Error = Error(message: string)

  datatype Option<+T> = None | Some(value: T)

  /** The `(value, err)` pair of a Go call: exactly one of the two is meaningful. */
  datatype Result<+T> = Success(value: T) | Failure(error: Error)
}
