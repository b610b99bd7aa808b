/** The optional value used wherever the router holds `null` or a missing entry. */
module Wrappers {

  datatype Option<+T> = None | Some(value: T)
}
