/** Option and Result: Java's Optional / nullable references and the
    value-or-exception outcome of a call. */
module Outcomes {

  /** `None` stands for Java's `null` or an empty `Optional`. */
  datatype Option<+T> = None | Some(value: T)

  /** The outcome of a Java call: a returned value or a thrown exception. */
  datatype Result<+T, +E> = Ok(value: T) | Err(error: E)
}
