/** The optional value Rust writes `Option<T>` and TypeScript `T | null`. */
module Wrappers {
  datatype Option<+T> = None | Some(value: T)
}
