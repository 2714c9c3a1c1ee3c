/** The optional value used for an absent record, an absent stored list and
    an empty edit cursor (JavaScript's `undefined` and `null`). */
module Wrappers {
  datatype Option<+T> = None | Some(value: T)
}
