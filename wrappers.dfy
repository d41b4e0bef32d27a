/** The optional value used for Java's nullable parameters and Optional results. */
module Wrappers {

  datatype Option<+T> = None | Some(value: T)
}
