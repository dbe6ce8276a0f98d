/** The optional value used for the outcome of decoding an input file. */
module Wrappers {

  datatype Option<+T> = None | Some(value: T)

}
