/** The optional value used for a diagnostic's comment and for the outcome of parsing one line. */
module Wrappers {

  datatype Option<+T> = None | Some(value: T)

}
