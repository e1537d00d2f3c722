/** An optional value: JavaScript's `T | null` (or an absent property) in this model. */
module Wrappers {

  datatype Option<+T> = None | Some(value: T)
}
