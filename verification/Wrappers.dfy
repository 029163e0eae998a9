/** Optional values: a missing header, a lookup with no hit, a token that does not verify. */
module Wrappers {

  datatype Option<+T> = None | Some(value: T)
}
