/** The optional value used wherever the modelled JavaScript has `undefined` or a falsy value. */
module Wrappers {
  datatype Option<+T> = None | Some(value: T)
}
