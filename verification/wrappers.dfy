/** The optional-value type used for "index not found" results. */
module Wrappers {

  /** `None` stands for JavaScript's `-1` from `findIndex`; `Some(i)` for a found index. */
  datatype Option<+T> = None | Some(value: T)
}
