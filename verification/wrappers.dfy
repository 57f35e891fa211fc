/** The Some/None datatype used in place of Java's null references. */
module Wrappers {

  datatype Option<+T> = None | Some(value: T)
}
