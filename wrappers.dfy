/** The optional values of the TypeScript source (`children?`, `description?`, a pending timer). */
module Wrappers {
  datatype Option<+T> = None | Some(value: T)
}
