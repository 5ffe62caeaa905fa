/**
 * The HTTP errors the handlers raise. An `HTTPException(status_code, detail)`
 * becomes a `Failure` with the same status and detail; an exception that is
 * not an `HTTPException` (a transport error, a missing JSON key, a pydantic
 * validation error raised inside a handler) reaches the framework, which
 * answers 500.
 */
module Http {

  const NotFound := 404
  const UnprocessableEntity := 422
  const InternalServerError := 500
  const ServiceUnavailable := 503

  datatype Failure = Failure(status: int, detail: string)

  /** The answer to an exception the handler does not catch. */
  const Unhandled := Failure(InternalServerError, "Internal Server Error")

  /** The answer to a request body the schema rejects. */
  const InvalidRequest := Failure(UnprocessableEntity, "Unprocessable Entity")
}
