/** The exceptions and failed assertions that the modelled functions end in. */
module Exceptions {

  datatype Error =
    | ItemNotFound
    | RangeError
    | RuntimeError
    | InvalidArgument
    | OutOfRange
    | AssertionFailed
    | UndefinedBehaviour   // what the C++ standard leaves undefined

  datatype Result<+T> = Ok(value: T) | Throw(error: Error) {
    predicate IsFailure() { Throw? }
    function PropagateFailure<U>(): Result<U> requires Throw? { Throw(error) }
    function Extract(): T requires Ok? { value }
  }
}
