/** Failure-carrying wrappers shared by the model. */
module Wrappers {

  /** A Java reference that may be null. */
  datatype Option<+T> = None | Some(value: T)

  /** The outcome of a Java call that either returns a value or ends in an exception
      (a lookup of a missing row, a null dereference). */
  datatype Outcome<+T> = Returned(value: T) | Threw
}
