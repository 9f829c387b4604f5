/** An optional value: JavaScript's `undefined` beside a value. */
module Wrappers {
  datatype Option<+T> = None | Some(value: T)
}
