/** A value that may be missing: a Java `null`, or "no such index". */
module Wrappers {

  datatype Option<+T> = None | Some(value: T)
}
