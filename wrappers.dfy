/** An optional value, used for the two optional rules of a validator. */
module Wrappers {

  datatype Option<+T> = None | Some(value: T)
}
