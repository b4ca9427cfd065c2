/** Optional values, standing in for the nil-able pointer fields of a
    generated protocol-buffer message. */
module Wrappers {

  datatype Option<+T> = None | Some(value: T)
}
