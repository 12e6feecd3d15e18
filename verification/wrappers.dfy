/** The optional-value wrapper used throughout the model: `None` stands for a
    JavaScript `undefined`/`null` field, `Some(v)` for a present one. */
module Wrappers {

  datatype Option<+T> = None | Some(value: T)
}
