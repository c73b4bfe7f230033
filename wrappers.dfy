/** The optional value used where the service may find nothing. */
module Wrappers {
  datatype Option<+T> = None | Some(value: T)
}
