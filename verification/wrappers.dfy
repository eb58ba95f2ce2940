/** Failure-carrying results used for every operation that NuTo lets throw an
    exception. The message is informative only; no property depends on it. */
module Wrappers {

  datatype Option<+T> = None | Some(value: T)

  datatype Result<+T> = Success(value: T) | Failure(error: string) {

    predicate IsFailure() {
      Failure?
    }

    function PropagateFailure<U>(): Result<U>
      requires Failure?
    {
      Failure(error)
    }

    function Extract(): T
      requires Success?
    {
      value
    }
  }

  /** Succeeds with no payload when `condition` holds, fails with `message` otherwise. */
  function Need(condition: bool, message: string): (r: Result<()>)
    ensures r.Success? <==> condition
  {
    if condition then Success(()) else Failure(message)
  }
}
