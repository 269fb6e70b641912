/** Failure-compatible values shared by every guard and service operation. */
module Results {

  /** A Java reference that may be null. */
  datatype Option<+T> = None | Some(value: T)

  /** The one error taxonomy the services' exceptions collapse into:
      EntityNotFoundException is NotFound, BookingOwnItemException is Forbidden,
      ItemNotAvailableException is Conflict, IllegalStateException is InvalidState. */
  datatype ErrorKind = NotFound | Forbidden | Conflict | InvalidState

  /** The value an operation returns, or the error it throws. */
  datatype Result<+T> = Ok(value: T) | Err(error: ErrorKind)

  /** What a guard returning void yields: it passes, or it throws. */
  datatype Outcome = Pass | Fail(error: ErrorKind)
}
