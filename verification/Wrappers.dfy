/** A value that may be missing: the source's `null`, `undefined` and `Option`. */
module Wrappers {
  datatype Option<+T> = None | Some(value: T)
}
