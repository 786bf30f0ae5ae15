/** The failure kinds of both components: the emitter's `not_implemented` and
    failed assertions, and the dictionary's `KeyError`. */
module Outcome {

  datatype Error =
    | NotImplemented   // an unsupported width, operator or conversion reached the emitter
    | AssertionError   // a contract violation by the caller (wrong box kind, bad index, ...)
    | KeyError         // a dictionary key that is not present

  datatype Result<T> = Ok(value: T) | Fail(error: Error)

  /** The outcome of an operation that returns nothing on success. */
  datatype Status = Done | Failed(error: Error)

  datatype Option<T> = None | Some(value: T)
}
