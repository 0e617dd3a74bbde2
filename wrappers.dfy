/** The value-or-absent wrapper used wherever the Java code has a nullable reference. */
module Wrappers {
  datatype Option<+T> = None | Some(value: T)
}
