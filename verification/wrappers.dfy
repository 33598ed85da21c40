/** Failure-compatible optional value, used for the partial operations of the model. */
module Wrappers {

  /** `None` stands for "no value": a rejected frame, a field that does not convert. */
  datatype Option<+T> = None | Some(value: T)
}
