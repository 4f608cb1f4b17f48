/** The optional value used for `NumberFormatException`s, unmatched operation names and datagrams left unanswered. */
module Wrappers {
  datatype Option<T> = None | Some(value: T)
}
