/** The stock optional value, used for lookups that return NULL and for calls that throw. */
module Wrappers {
  datatype Option<+T> = None | Some(value: T)
}
