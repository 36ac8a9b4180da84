/** A value that may be absent: the model's stand-in for a regex match that
    may fail, and for JavaScript's `null`. */
module Wrappers {
  datatype Option<+T> = None | Some(value: T)
}
