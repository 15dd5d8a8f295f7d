/** The JSON envelopes every endpoint answers with, and how a service error
    is turned into one. */
module Response {

  import opened Wrappers
  import Pagination

  /** The default message for each error code. */
  const ErrorMessages: map<string, string> := map[
    "VALIDATION_ERROR" := "Validation error",
    "UNAUTHORIZED" := "Unauthorized",
    "FORBIDDEN" := "Forbidden",
    "NOT_FOUND" := "Resource not found",
    "CONFLICT" := "Conflict",
    "INTERNAL_SERVER_ERROR" := "Internal server error",
    "INVALID_CREDENTIALS" := "Invalid credentials",
    "EMAIL_OR_USERNAME_TAKEN" := "Email or username is already taken",
    "USER_NOT_FOUND" := "User not found",
    "ROLE_NOT_FOUND" := "Role not found",
    "BUSINESS_NOT_FOUND" := "Business not found",
    "BUSINESS_NOT_APPROVED" := "Business is not approved",
    "JOB_NOT_FOUND" := "Job not found",
    "JOB_APPLICATION_NOT_FOUND" := "Job application not found",
    "EVENT_NOT_FOUND" := "Event not found",
    "EVENT_REGISTRATION_NOT_FOUND" := "Event registration not found",
    "PAYMENT_NOT_FOUND" := "Payment not found"]

  const Fallback: string := "Internal server error"

  datatype Envelope<T> =
    | SuccessBody(code: int, message: string, data: Option<T>, meta: Option<Pagination.Meta>)
    | ErrorBody(code: int, message: string, errorCode: string, details: Option<seq<Detail>>)

  /** `res.status(status).json(body)`. */
  datatype Reply<T> = Reply(status: int, body: Envelope<T>)

  /** successResponse; `None` is an argument left out, which takes its
      default. */
  function SuccessResponse<T>(code: Option<int>, message: Option<string>, data: Option<T>, meta: Option<Pagination.Meta>)
    : (r: Reply<T>)
    ensures r.body.SuccessBody? && r.status == r.body.code
    ensures r.body.code == (if code.Some? then code.value else 200)
    ensures r.body.message == (if message.Some? then message.value else "Success")
    ensures r.body.data == data && r.body.meta == meta
  {
    var c := Coalesce(code, 200);
    Reply(c, SuccessBody(c, Coalesce(message, "Success"), data, meta))
  }

  /** `message || errorMessages[errorCode] || 'Internal server error'`. */
  function FinalMessage(message: Option<string>, errorCode: string): (m: string)
    ensures Given(message) ==> m == message.value
    ensures !Given(message) && errorCode in ErrorMessages ==> m == ErrorMessages[errorCode]
    ensures !Given(message) && errorCode !in ErrorMessages ==> m == Fallback
  {
    if Given(message) then message.value
    else if errorCode in ErrorMessages then ErrorMessages[errorCode]
    else Fallback
  }

  /** The message of an error envelope is never empty, whatever the caller
      passes. */
  lemma FinalMessageNonEmpty(message: Option<string>, errorCode: string)
    ensures |FinalMessage(message, errorCode)| > 0
  {
    if !Given(message) && errorCode in ErrorMessages {
      assert forall k :: k in ErrorMessages ==> |ErrorMessages[k]| > 0;
    }
  }

  /** errorResponse; `None` is an argument left out, which takes its default. */
  function ErrorResponse<T>(code: Option<int>, message: Option<string>, errorCode: Option<string>, details: Option<seq<Detail>>)
    : (r: Reply<T>)
    ensures r.body.ErrorBody? && r.status == r.body.code
    ensures r.body.code == (if code.Some? then code.value else 500)
    ensures r.body.errorCode == (if errorCode.Some? then errorCode.value else "INTERNAL_SERVER_ERROR")
    ensures r.body.message == FinalMessage(message, r.body.errorCode)
    ensures r.body.details == details
  {
    var c := Coalesce(code, 500);
    var ec := Coalesce(errorCode, "INTERNAL_SERVER_ERROR");
    Reply(c, ErrorBody(c, FinalMessage(message, ec), ec, details))
  }

  /** The reply for a failed request: an error carrying a code and an error
      code is sent with them (and its details, when `withDetails`); anything
      else reaches the global handler, which answers 500. */
  function Render<T>(e: Error, withDetails: bool): (r: Reply<T>)
    ensures r.body.ErrorBody? && r.status == r.body.code
  {
    if e.Err? && e.code != 0 && e.errorCode != "" then
      ErrorResponse(Some(e.code), None, Some(e.errorCode), if withDetails then e.details else None)
    else
      ErrorResponse(Some(500), None, Some("INTERNAL_SERVER_ERROR"), None)
  }

  /** A domain error keeps its status, error code and details on the wire,
      with the table's message; an unexpected failure is a 500 with the
      generic message and no details. */
  lemma RenderSpec<T>(e: Error, withDetails: bool)
    ensures var r: Reply<T> := Render(e, withDetails);
      && (e.Err? && e.code != 0 && e.errorCode != "" ==>
            && r.status == e.code && r.body.errorCode == e.errorCode
            && r.body.details == (if withDetails then e.details else None)
            && r.body.message == (if e.errorCode in ErrorMessages then ErrorMessages[e.errorCode] else Fallback))
      && (e.Crash? ==>
            r.status == 500 && r.body.errorCode == "INTERNAL_SERVER_ERROR" && r.body.message == Fallback && r.body.details.None?)
  {
  }
}
