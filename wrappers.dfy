/** The optional value: `undefined` (or `null`) versus a present value in the source. */
module Wrappers {

  datatype Option<+T> = None | Some(value: T)
}
