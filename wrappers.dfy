/** Option and Outcome values used in place of JavaScript's undefined/null and exceptions. */
module Wrappers {
  datatype Option<+T> = None | Some(value: T)

  /** The outcome of a call that either returns normally or throws an Error with a message. */
  datatype Outcome<+E> = Pass | Fail(error: E)
}
