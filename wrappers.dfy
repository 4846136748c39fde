/** The optional value of a lookup that may find nothing (JavaScript's `null`). */
module Wrappers {

  datatype Option<+T> = None | Some(value: T)

}
