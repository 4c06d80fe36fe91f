/** Optional values, for results the source signals with `nullptr`, a
    `false` return or a failed assertion. */
module Wrappers {
  datatype Option<T> = None | Some(value: T)
}
