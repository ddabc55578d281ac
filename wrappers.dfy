/** A small Option type used where the source either produces a value or gives up. */
module Wrappers {
  datatype Option<+T> = None | Some(value: T)
}
