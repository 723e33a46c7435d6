/** Failure-aware wrappers shared by the whole model. */
module Wrappers {

  /** A value that may be absent (a nil pointer or a missing map entry in the client). */
  datatype Option<+T> = None | Some(value: T)

  /** What a collaborator the model does not see returns: a value, or a failure
      carrying the text of the error it reported. */
  datatype Attempt<+T> = Done(value: T) | Fail(cause: string)
}
