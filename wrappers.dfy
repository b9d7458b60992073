/** The optional value used for request fields that may be missing and for
    decoders that may reject their input. */
module Wrappers {

  datatype Option<+T> = None | Some(value: T)
}
