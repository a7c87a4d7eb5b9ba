/** The optional value used for `std::optional` fields and for parsers that may fail. */
module Wrappers {
  datatype Option<+T> = None | Some(value: T)
}
