/** The optional-value datatype shared by the decoder, the device engine and the
    configuration parser. Python's `None` results become `None` here. */
module Wrappers {

  datatype Option<+T> = None | Some(value: T)
}
