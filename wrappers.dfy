module Wrappers {
  /** A value that may be missing: JavaScript's `null` / `undefined` results. */
  datatype Option<+T> = None | Some(value: T)
}
