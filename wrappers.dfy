/** An optional value: a setting that may be unset, a search that may find nothing. */
module Wrappers {
  datatype Option<+T> = None | Some(value: T)
}
