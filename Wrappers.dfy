/** The conventional Some/None datatype; None plays the part of a NULL pointer. */
module Wrappers {
  datatype Option<+T> = None | Some(value: T)
}
