/** The one failure-compatible wrapper the model needs: a value that may be absent. */
module Wrappers {

  /** `None` stands for a missing value: a NaN cell of the movie table, or a step that raised. */
  datatype Option<+T> = None | Some(value: T)
}
