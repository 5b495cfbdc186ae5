/** The optional value used for labels that may not have been assigned yet. */
module Wrappers {

  datatype Option<+T> = None | Some(value: T)
}
