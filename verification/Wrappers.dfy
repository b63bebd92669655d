/** Small types every part uses. */
module Wrappers {
  /** A value that may be missing: a NULL column, a missing row, a Python None or a Go nil. */
  datatype Option<+T> = None | Some(value: T)

  newtype byte = x: int | 0 <= x < 256
}
