/** The optional-value datatype used for operations that can throw in the source. */
module Wrappers {

  /** `None` stands for "the JavaScript call threw", `Some(v)` for a normal result `v`. */
  datatype Option<+T> = None | Some(value: T)
}
