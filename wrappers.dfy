/** The optional-value datatype used for results that may be absent
    (a discarded fragment, a failed parse). */
module Wrappers {
  datatype Option<+T> = None | Some(value: T)
}
