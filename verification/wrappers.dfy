/** The optional-value datatype used throughout the model: `None` stands for
    JavaScript's `null` (and, for parsed numbers, for `NaN`). */
module Wrappers {

  datatype Option<+T> = None | Some(value: T)
}
