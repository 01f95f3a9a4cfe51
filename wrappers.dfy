/** A value that may be absent (JavaScript `null` / `undefined`). */
module Wrappers {
  datatype Option<+T> = None | Some(value: T)
}
