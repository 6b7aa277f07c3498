/** Option and Outcome: a Java reference that may be null, and a statement
    that either completes or raises an exception. */
module Wrappers {

  datatype Option<+T> = None | Some(value: T)

  /** `Pass` when a statement completes, `Fail(e)` when it throws `e`. */
  datatype Outcome<+E> = Pass | Fail(error: E)

  datatype Result<+R, +E> = Success(value: R) | Failure(error: E)

  /** The outcome of a statement whose effect is computed as `res`. */
  function OutcomeOf<R, E>(res: Result<R, E>): (r: Outcome<E>)
    ensures r.Pass? <==> res.Success?
    ensures r.Fail? ==> r.error == res.error
  {
    if res.Success? then Pass else Fail(res.error)
  }
}
