/** Small shared value types. */
module Wrappers {
  /** An optional value, as Rust's `Option`. */
  datatype Option<+T> = None | Some(value: T)
}
