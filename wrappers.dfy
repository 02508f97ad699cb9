/** The optional value the source writes as `null`/`undefined`. */
module Wrappers {
  datatype Option<+T> = None | Some(value: T)
}
