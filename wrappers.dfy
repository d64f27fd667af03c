/** The optional value used across the model: `None` stands for JavaScript's
    `null`, `undefined` or `NaN`, depending on where it appears. */
module Wrappers {

  datatype Option<+T> = None | Some(value: T)
}
