/** The optional value used for the job identifier and for parse results. */
module Wrappers {

  datatype Option<+T> = None | Some(value: T)
}
