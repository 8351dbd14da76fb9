/** The optional value used for results that may be absent or rejected, and
    the byte string used for files. */
module Wrappers {
  datatype Option<+T> = None | Some(value: T)

  type Bytes = seq<bv8>
}
