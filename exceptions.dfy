/**
 * The exception kinds the services raise, as values. The names follow the
 * application's own exception classes (BusinessException,
 * ResourceNotFoundException, ServiceException), the bean-validation
 * ConstraintViolationException, and the IllegalArgumentException of the
 * older service.
 */
module Exceptions {

  datatype Error =
    | BusinessError(message: string)      // BusinessException
    | NotFound(message: string)           // ResourceNotFoundException
    | ServiceFailure(message: string)     // ServiceException wrapping a runtime failure
    | IllegalArgument(message: string)    // IllegalArgumentException (older service)
    | StoreFailure(message: string)       // the store refused the call itself
    | ConstraintViolation                 // bean validation refused the record on save

  /** An operation either returns a value or throws one of the errors above. */
  datatype Result<+T> = Ok(value: T) | Err(error: Error)
}
