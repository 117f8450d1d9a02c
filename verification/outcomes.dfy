/** Optional values, the HTTP exceptions the API throws, and the result every
    fallible operation returns instead of throwing. */
module Outcomes {

  datatype Option<+T> = None | Some(value: T) {

    /** The value, or `default` when there is none (TypeScript's `??`) */
    function GetOr(default: T): T {
      match this
      case Some(v) => v
      case None => default
    }
  }

  /** One variant per Nest exception class the core throws, carrying its message */
  datatype Error =
    | BadRequest(message: string)
    | Unauthorized(message: string)
    | Forbidden(message: string)
    | NotFound(message: string)

  /** Either the operation's value or the one exception it threw */
  datatype Result<+T> = Ok(value: T) | Err(error: Error) {

    predicate IsFailure() {
      Err?
    }

    function PropagateFailure<U>(): Result<U>
      requires Err?
    {
      Err(error)
    }

    function Extract(): T
      requires Ok?
    {
      value
    }
  }

  // The messages the services and the framework attach to their exceptions.
  const MsgInvalidDateRange: string := "Invalid date range"
  const MsgRoomNotFound: string := "Room not found"
  const MsgRoomNotAvailable: string := "Room not available for selected dates"
  const MsgBookingNotFound: string := "Booking not found"
  const MsgNotAllowed: string := "Not allowed"
  const MsgEmailTaken: string := "Email already registered"
  const MsgInvalidRole: string := "Invalid role"
  const MsgInvalidCredentials: string := "Invalid credentials"
  /** What the JWT guard answers when no valid token accompanies the request */
  const MsgUnauthorized: string := "Unauthorized"
  /** What Nest answers when a guard's canActivate returns false */
  const MsgForbiddenResource: string := "Forbidden resource"
  /** Stands for the list of constraint messages the validation pipe reports */
  const MsgValidationFailed: string := "Bad Request"
}
