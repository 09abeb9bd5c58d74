/** The Option type used for values numpy would represent as NaN. */
module Wrappers {

  datatype Option<+T> = None | Some(value: T)
}
