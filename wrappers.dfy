/** The optional value used wherever the source can see `undefined`, `null` or `NaN`. */
module Wrappers {

  datatype Option<+T> = None | Some(value: T)

}
