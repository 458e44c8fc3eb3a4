/** The conventional option type, used for the source's `value, ok` and `value, err` returns. */
module Wrappers {
  datatype Option<+T> = None | Some(value: T)
}
