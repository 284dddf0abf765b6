/** The optional value used where the page script may find nothing. */
module Wrappers {
  datatype Option<+T> = None | Some(value: T)
}
