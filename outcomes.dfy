/** Option and Result values, and the exceptions the validator throws. */
module Outcomes {

  datatype Option<T> = None | Some(value: T)

  /** The exceptions raised by the validator's own code. */
  datatype Error =
    | InvalidArgument(message: string)  // InvalidArgumentException: too few rule parameters
    | ModelNotFound                     // ModelNotFoundException: no record in single-value mode
    | BadMethodCall(message: string)    // BadMethodCallException: no extension for a dynamic call

  /** A value, or the exception raised instead of returning one. */
  datatype Result<T> = Ok(value: T) | Err(error: Error)

  /** The outcome of a guard that returns nothing or throws. */
  datatype Check = Pass | Fail(error: Error)

  /** PHP `!` applied to a call that may throw: an exception passes through. */
  function Negate(r: Result<bool>): (n: Result<bool>)
    ensures n.Ok? <==> r.Ok?
    ensures n.Ok? ==> n.value == !r.value
    ensures n.Err? ==> n == r
  {
    match r
    case Ok(b) => Ok(!b)
    case Err(e) => Err(e)
  }
}
