/** Optional values and pass/fail outcomes shared by the other modules. */
module Wrappers {

  /** A value that may be absent: what a primary-key lookup returns. */
  datatype Option<+T> = None | Some(value: T)

  /** The outcome of one request handler: it either completed and committed,
      or it failed before its commit. */
  datatype Outcome<+E> = Pass | Fail(error: E)
}
