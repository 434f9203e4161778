/** Option and Result: Java's null references and thrown exceptions made explicit. */
module Wrappers {

  /** `None` stands for a Java `null` reference. */
  datatype Option<+T> = None | Some(value: T)

  /** The outcome of a step that may raise a checked exception carrying a message. */
  datatype Result<+T> = Ok(value: T) | Err(msg: string)
}
