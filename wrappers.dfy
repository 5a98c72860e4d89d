/** The optional value that stands for TypeScript's `T | null`. */
module Wrappers {
  datatype Option<+T> = None | Some(value: T)
}
