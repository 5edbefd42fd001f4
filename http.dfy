/** What a route handler returns or raises as `HTTPException(status_code, detail)`. */
module Http {
  datatype HttpError = HttpError(status: int, detail: string)

  /** A handler's result: the response body it returns, or the HTTP error it raises. */
  datatype Outcome<T> = Ok(value: T) | Fail(error: HttpError)

  const BadRequest := 400
  const NotFound := 404
  const Unprocessable := 422
  const ServerError := 500
}
