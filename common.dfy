/** Values shared by every module: optional values, the exceptions the service
    raises, and results that carry either a value or such an exception. */
module Common {

  datatype Option<+T> = None | Some(value: T)

  /** An exception raised by the service, by its Python class. */
  datatype Raised =
    | HttpException(status_code: int, detail: string)
    | ValueError(message: string)
    | IntegrityError(constraint: string)

  datatype Result<+T> = Ok(value: T) | Err(error: Raised)

  const HTTP_400_BAD_REQUEST: int := 400
  const HTTP_401_UNAUTHORIZED: int := 401
  const HTTP_403_FORBIDDEN: int := 403
  const HTTP_404_NOT_FOUND: int := 404
  const HTTP_422_UNPROCESSABLE_ENTITY: int := 422

  /** Timestamps are integer minutes. */
  const MINUTES_PER_DAY: int := 1440

  /** The 404 that every lookup by id or by token subject raises. */
  const USER_NOT_FOUND: Raised := HttpException(HTTP_404_NOT_FOUND, "User not found")
}
