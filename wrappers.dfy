/** The optional value used where a key does not map to a direction. */
module Wrappers {

  datatype Option<+T> = None | Some(value: T)
}
