/** Option datatype used for JavaScript's `undefined` and for operations that may throw. */
module Wrappers {

  datatype Option<+T> = None | Some(value: T)
}
