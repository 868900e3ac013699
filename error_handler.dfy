/**
  The central error translator: a thrown value becomes the (status, message,
  details) of the JSON error response. Writing to the response object is replaced
  by returning the response; logging the unhandled error is left out.
 */
module ErrorHandling {
  import opened Wrappers
  import opened Errors

  /**
    A thrown value as the handler sees it through its two `instanceof` tests:
    the validator's field errors if it is a validation error, its status, message
    and details if it is an HttpError, and whatever else it holds.
   */
  datatype Thrown = Thrown(validateError: Option<map<string, string>>, httpError: Option<HttpError>, description: string)

  /** A value thrown by the service layer. */
  function Raised(e: HttpError): Thrown
  {
    Thrown(None, Some(e), e.message)
  }

  datatype ErrorResponse = ErrorResponse(status: int, message: string, details: Details)

  const ValidationFailedMessage := "Validation Failed"
  const InternalErrorMessage := "Internal Server Error"

  /** Validation errors first, then typed errors, then everything else. */
  function HandleError(err: Thrown): (r: ErrorResponse)
    ensures r.details != NoDetails ==> err.validateError.Some? || err.httpError.Some?
  {
    if err.validateError.Some? then
      ErrorResponse(400, ValidationFailedMessage, FieldErrors(err.validateError.value))
    else if err.httpError.Some? then
      var e := err.httpError.value;
      ErrorResponse(e.status, e.message, e.details)
    else
      ErrorResponse(500, InternalErrorMessage, NoDetails)
  }

  /** The validation branch is taken first: a validation error is a 400 whatever else it is. */
  lemma ValidationErrorIsBadRequest(err: Thrown)
    requires err.validateError.Some?
    ensures HandleError(err) == ErrorResponse(400, "Validation Failed", FieldErrors(err.validateError.value))
  {
  }

  /** A typed error reaches the client with its own status, message and details. */
  lemma HttpErrorPassesThrough(err: Thrown)
    requires err.validateError.None? && err.httpError.Some?
    ensures HandleError(err).status == err.httpError.value.status
    ensures HandleError(err).message == err.httpError.value.message
    ensures HandleError(err).details == err.httpError.value.details
  {
  }

  /**
    Any other error is a bare 500, and nothing about it leaks: two unhandled errors
    give the same response whatever they hold.
   */
  lemma UnhandledErrorLeaksNothing(a: Thrown, b: Thrown)
    requires a.validateError.None? && a.httpError.None?
    requires b.validateError.None? && b.httpError.None?
    ensures HandleError(a) == HandleError(b) == ErrorResponse(500, "Internal Server Error", NoDetails)
  {
  }

  /** What each error the service layer raises turns into. */
  lemma ServiceErrorsTranslate(message: string, m: Option<string>, details: Details)
    ensures HandleError(Raised(BadRequestError(message, details))) == ErrorResponse(400, message, details)
    ensures HandleError(Raised(ConflictError(message, details))) == ErrorResponse(409, message, details)
    ensures HandleError(Raised(NotFoundError(m, details)))
         == ErrorResponse(404, if m.Some? then m.value else "Not Found", details)
  {
  }

  /** With only subclass errors thrown, every response is a 400, 404, 409 or 500, and a 500 exactly for an unhandled error. */
  lemma ResponseStatusOrigin(err: Thrown)
    requires err.httpError.Some? ==> WellFormed(err.httpError.value) && err.httpError.value.cls != Base
    ensures HandleError(err).status in {400, 404, 409, 500}
    ensures HandleError(err).status == 500 <==> err.validateError.None? && err.httpError.None?
  {
  }
}
