/** The optional value used for "found / not found" and "given / not given" outcomes. */
module Wrappers {
  datatype Option<+T> = None | Some(value: T)
}
