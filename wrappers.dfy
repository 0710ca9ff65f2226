/** Optional values (JavaScript's `undefined` / `null`) and pass/fail outcomes (a thrown error). */
module Wrappers {

  datatype Option<+T> = None | Some(value: T)

  /** The result of an operation that either completes or throws an error `E`. */
  datatype Outcome<+E> = Pass | Fail(error: E)
}
