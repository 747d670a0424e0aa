/** Shared vocabulary: optional values, results, and the Python exceptions the
    feature engine lets escape to its caller. */
module Prelude {

  datatype Option<T> = None | Some(value: T)

  /** The exception a Python operation raises, named after the Python class. */
  datatype PyError =
    | ValueError        // e.g. the dataset path does not exist
    | IndexError        // indexing past the end of a list or an empty selection
    | KeyError          // a missing dictionary key or structured-array field
    | AttributeError    // a missing attribute on a dataset handle
    | TypeError         // an operation applied to an operand of the wrong type
    | OverflowError     // int() of an infinite float
    | JsonDecodeError   // a metadata blob that is not valid JSON
    | UnboundLocalError // a local variable read before any assignment

  datatype Result<T> = Ok(value: T) | Err(error: PyError)
}
