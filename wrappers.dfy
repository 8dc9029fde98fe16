/** Small failure-carrying datatypes shared by every module of the model. */
module Wrappers {

  /** A value that may be absent: a SQL NULL, a JavaScript `undefined`, a `NaN` parse. */
  datatype Option<+T> = None | Some(value: T)
}
