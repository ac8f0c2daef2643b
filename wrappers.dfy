/** The small Option wrapper used for cells and fields that may be missing. */
module Wrappers {
  datatype Option<+T> = None | Some(value: T)
}
