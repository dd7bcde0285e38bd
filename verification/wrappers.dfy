/** Failure-compatible wrappers shared by the client and the server models.
    `None` stands for JavaScript's `null` / `undefined`. */
module Wrappers {

  datatype Option<+T> = None | Some(value: T)

  /** The value thrown by a failing call: a JavaScript `Error` (with its `name`
      and `message`) or any other thrown value. */
  datatype Fault = ErrorObject(name: string, message: string) | NonErrorValue

  /** The outcome of a call that may throw. */
  datatype Result<+R> = Ok(value: R) | Thrown(fault: Fault)
}
