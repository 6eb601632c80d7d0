/** The optional value used for style lookups and colour resolution. */
module Wrappers {
  datatype Option<+T> = None | Some(value: T)
}
