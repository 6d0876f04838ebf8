/** Result types shared by the model. */
module Wrappers {

  /** A Java reference that may be null. */
  datatype Option<T> = None | Some(value: T)

  /** The Java exceptions the modelled code can raise. */
  datatype JavaException = NullPointer | Unsupported | IndexOutOfBounds | ConcurrentModification

  /** How a Java call ends: it returns a value or throws. */
  datatype Outcome<T> = Return(value: T) | Throw(error: JavaException)
}
