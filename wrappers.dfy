/** Optional values: JavaScript's `null`/`undefined` and optional chaining. */
module Wrappers {
  datatype Option<+T> = None | Some(value: T)
}
