/** The optional value returned by the registry lookups. */
module Wrappers {

  datatype Option<+T> = None | Some(value: T)
}
