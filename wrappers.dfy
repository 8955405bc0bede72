/** The usual Some/None datatype, standing for JavaScript's "value or null". */
module Wrappers {

  datatype Option<+T> = None | Some(value: T)
}
