/** The optional value used throughout the model: a missing request field,
    an insert that was never issued, a rendering that threw. */
module Wrappers {
  datatype Option<+T> = None | Some(value: T)
}
