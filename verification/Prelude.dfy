/** Results and errors shared by every component. */
module Prelude {

  datatype Option<+T> = None | Some(value: T)

  /** The errors the modelled code returns, one constructor per error value. */
  datatype Error =
    | ClientError           // any failure reported by the database client
    | UserAlreadyExists
    | InvalidUserName
    | UserNotFound
    | DuplicateEmail
    | DuplicateDocument
    | InvalidCredentials
    | InvalidUserItem
    | RolesRequired
    | InvalidRole
    | InvalidDocument
    | InvalidEmail
    | InvalidPhone
    | InvalidPassword
    | MissingSecret
    | SigningError
    | MissingToken
    | InvalidToken
    | ExpiredToken

  /** A value and an error, of which exactly one is meaningful. */
  datatype Result<+T> = Ok(value: T) | Err(error: Error)

  /** The answer of an operation that returns an error and nothing else. */
  datatype Outcome = Success | Failure(error: Error)
}
