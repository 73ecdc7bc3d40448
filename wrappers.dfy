/** The optional-value type used throughout the model: `None` stands for
    JavaScript's `null`, `undefined` or (for numbers) `NaN`. */
module Wrappers {

  datatype Option<+T> = None | Some(value: T)
}
