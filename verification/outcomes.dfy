/** Java-side vocabulary shared by every service: nullable references and the
    exceptions the services throw, each carrying the message the service builds. */
module Outcomes {

  /** A Java reference that may be null. */
  datatype Option<+T> = None | Some(value: T)

  /** The exception kinds the modelled services raise. */
  datatype Thrown =
    | ResourceNotFound(message: string)
    | InvalidInput(message: string)
    | RuntimeFailure(message: string)
    | IllegalState(message: string)
    | NullPointer

  /** A service call either returns a value or throws. */
  datatype Result<+T> = Ok(value: T) | Threw(thrown: Thrown)

  /** A call of a `void` service method. */
  datatype Unit = Unit
}
