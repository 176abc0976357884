/** Optional values: a star rating may be absent from a review record. */
module Wrappers {
  datatype Option<+T> = None | Some(value: T)
}
