/** The optional value used for Java's nullable references and for `Optional<T>`. */
module Wrappers {

  datatype Option<+T> = None | Some(value: T)
}
