/**
 * Values shared by every service model: an optional value, the HTTP exceptions
 * that the NestJS services throw, the errors the ORM raises, and a Result that
 * carries either a value or one of those errors.
 */
module Common {

  datatype Option<+T> = None | Some(value: T)

  /** The NestJS HttpException subclasses the services throw. */
  datatype ErrorKind = BadRequest | Unauthorized | Forbidden | NotFound | Conflict | InternalServerError

  /**
   * An exception leaving a service: an HttpException of some kind with its
   * message, a known ORM request error identified by its code (for example
   * "P2025" when an update or delete targets a missing row), or any other
   * runtime error (a TypeError from reading a property of null, say).
   */
  datatype Error = HttpError(kind: ErrorKind, message: string) | DbError(code: string) | Unexpected

  /** Code of the ORM error raised when an update or delete finds no row. */
  const RecordNotFound: string := "P2025"

  /** Code of the ORM error raised when a write would repeat a value of a unique column. */
  const UniqueViolation: string := "P2002"

  datatype Result<+T> = Ok(value: T) | Err(error: Error) {
    predicate IsFailure() {
      Err?
    }

    function PropagateFailure<U>(): Result<U>
      requires Err?
    {
      Err(error)
    }

    function Extract(): T
      requires Ok?
    {
      value
    }
  }

  /** The HTTP status each exception kind carries. */
  function StatusOf(k: ErrorKind): (status: int)
    ensures 400 <= status < 600
    ensures status == 500 <==> k == InternalServerError
  {
    match k
    case BadRequest => 400
    case Unauthorized => 401
    case Forbidden => 403
    case NotFound => 404
    case Conflict => 409
    case InternalServerError => 500
  }
}
