/** An optional value: what JavaScript writes as undefined or null. */
module Wrappers {
  datatype Option<+T> = None | Some(value: T)
}
