/** The optional value used for "the pattern did not match" and "the label is absent". */
module Wrappers {

  datatype Option<+T> = None | Some(value: T)
}
