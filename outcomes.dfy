/** Optional values, results, and the errors the registration path raises.
    The three exception classes of the application (validation, duplicate user,
    storage) and the hashing failure become the constructors of one `Error`. */
module Outcomes {

  datatype Option<+T> = None | Some(value: T)

  datatype Result<+T> = Success(value: T) | Failure(error: Error)

  /** The outcome of a call that returns nothing but may throw. */
  datatype Outcome = Pass | Fail(error: Error)

  datatype Error =
    | ValidationError(message: string)      // ValidationException
    | UserAlreadyExists(message: string)    // UserAlreadyExistsException
    | StorageError(message: string)         // StorageException
    | HashingError(message: string)         // RuntimeException from the password hasher
}
