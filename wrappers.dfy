/** Option, the value the model uses where the source may have nothing. */
module Wrappers {

  /** An optional value: stands for TypeScript's `undefined`/`null` or a missing entry. */
  datatype Option<+T> = None | Some(value: T)
}
