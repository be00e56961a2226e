/** Wrappers shared by every module of the model. */
module Outcomes {

  /** A value that may be absent (Python's None, a JavaScript falsy field). */
  datatype Option<+T> = None | Some(value: T)

  /** The result of a call into code outside the model (a language-model
      chain, a numerical library): either the value it returns or the message
      of the exception it raises. */
  datatype Outcome<+T> = Ok(value: T) | Fault(message: string)
}
