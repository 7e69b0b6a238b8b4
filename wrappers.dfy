/** The Some/None datatype used for absent request fields and failed lookups. */
module Wrappers {

  datatype Option<+T> = None | Some(value: T)
}
