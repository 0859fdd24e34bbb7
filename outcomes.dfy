/** Optional values and the outcome of a call to the hosted data service. */
module Outcomes {

  /** A value that may be absent (a nullable field, a `find` that found nothing). */
  datatype Option<+T> = None | Some(value: T) {
    function GetOr(default: T): T {
      match this
      case Some(v) => v
      case None => default
    }
  }

  /** What a remote call returned: its payload, or the error it reported. */
  datatype Remote<+T> = Ok(value: T) | Failed

  /** Why a store operation threw. */
  datatype StoreError = NotAuthenticated | WriteFailed

  /** The result of an async operation that either resolves or rethrows. */
  datatype Outcome = Done | Threw(error: StoreError)
}
