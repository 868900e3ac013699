/**
  The error vocabulary of the service: an HTTP-status-tagged error and its three
  subclasses. The source's classes only set read-only fields in their constructors,
  so an error is a value; the subclass is kept as a tag so that `instanceof` on a
  subclass can be told apart from the base class.
 */
module Errors {
  import opened Wrappers

  /** The `details` payload an error may carry (`unknown` in the source). */
  datatype Details =
    | NoDetails                                  // `details` left undefined
    | Payload(text: string)                      // any other value, kept opaque
    | FieldErrors(fields: map<string, string>)   // a validator's per-field messages

  /** The class whose constructor built the error. */
  datatype ErrorClass = Base | BadRequest | NotFound | Conflict

  datatype HttpError = HttpError(cls: ErrorClass, status: int, message: string, details: Details)

  const BadRequestStatus := 400
  const NotFoundStatus := 404
  const ConflictStatus := 409
  const DefaultNotFoundMessage := "Not Found"

  /** The status a subclass always carries; the base class takes any status. */
  predicate WellFormed(e: HttpError)
  {
    match e.cls
    case Base => true
    case BadRequest => e.status == BadRequestStatus
    case NotFound => e.status == NotFoundStatus
    case Conflict => e.status == ConflictStatus
  }

  /** `new HttpError(status, message, details)`: keeps exactly what it was given. */
  function NewHttpError(status: int, message: string, details: Details): (e: HttpError)
    ensures e.cls == Base && WellFormed(e)
    ensures e.status == status && e.message == message && e.details == details
  {
    HttpError(Base, status, message, details)
  }

  /** `new BadRequestError(message, details)`. */
  function BadRequestError(message: string, details: Details): (e: HttpError)
    ensures e.cls == BadRequest && WellFormed(e) && e.status == 400
    ensures e.message == message && e.details == details
  {
    HttpError(BadRequest, BadRequestStatus, message, details)
  }

  /** `new NotFoundError(message?, details)`: an absent message becomes "Not Found". */
  function NotFoundError(message: Option<string>, details: Details): (e: HttpError)
    ensures e.cls == NotFound && WellFormed(e) && e.status == 404
    ensures message.None? ==> e.message == "Not Found"
    ensures message.Some? ==> e.message == message.value
    ensures e.details == details
  {
    HttpError(NotFound, NotFoundStatus, if message.Some? then message.value else DefaultNotFoundMessage, details)
  }

  /** `new ConflictError(message, details)`. */
  function ConflictError(message: string, details: Details): (e: HttpError)
    ensures e.cls == Conflict && WellFormed(e) && e.status == 409
    ensures e.message == message && e.details == details
  {
    HttpError(Conflict, ConflictStatus, message, details)
  }
}
