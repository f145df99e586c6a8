/** Small failure-carrying datatypes shared by the other modules. */
module Wrappers {

  /** A value that may be absent: `undefined`/`null` in the JavaScript code. */
  datatype Option<+T> = None | Some(value: T)

  /** How a JavaScript expression completes: with a value, or by throwing an
      exception that nothing in the component catches. */
  datatype Completion<+T> = Normal(value: T) | Throws
}
