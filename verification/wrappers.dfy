/** Optional values, used wherever the source returns nullptr, npos or an
    out-of-range exception instead of a value. */
module Wrappers {

  datatype Option<+T> = None | Some(value: T)
}
