/** Values shared by every service: optional values, the error shape the
    services throw, results, and the JavaScript truthiness tests the source
    applies to request fields. */
module Wrappers {

  /** `None` stands for a JavaScript `undefined` or `null`. */
  datatype Option<+T> = None | Some(value: T)

  /** One entry of an error's `details` list. */
  datatype Detail = Detail(field: string, message: string)

  /** What a service throws. `Err` is a domain error built with an explicit
      HTTP `code` and symbolic `errorCode`; `Crash` is any other exception
      (a store error such as a duplicate primary key, or a TypeError), which
      controllers hand to the global error handler. */
  datatype Error =
    | Err(code: int, errorCode: string, details: Option<seq<Detail>>)
    | Crash

  datatype Result<+T> = Ok(value: T) | Fail(error: Error)

  /** `if (!s)` is false: the string is present and not empty. */
  predicate Given(s: Option<string>) {
    s.Some? && s.value != ""
  }

  /** JavaScript `s || fallback` on an optional string. */
  function Or(s: Option<string>, fallback: Option<string>): (r: Option<string>)
    ensures Given(s) ==> r == s
    ensures !Given(s) ==> r == fallback
  {
    if Given(s) then s else fallback
  }

  /** JavaScript `o ?? current`: only `undefined` and `null` fall back. */
  function Coalesce<T>(o: Option<T>, current: T): T {
    if o.Some? then o.value else current
  }

  /** JavaScript `o ?? current` where the stored value may itself be null. */
  function Keep<T>(o: Option<T>, current: Option<T>): (r: Option<T>)
    ensures o.Some? ==> r == o
    ensures o.None? ==> r == current
  {
    if o.Some? then o else current
  }

  function NotFound(errorCode: string): Error {
    Err(404, errorCode, None)
  }

  function Forbidden(errorCode: string): Error {
    Err(403, errorCode, None)
  }

  /** A `VALIDATION_ERROR` naming one field. */
  function Invalid(code: int, field: string, message: string): Error {
    Err(code, "VALIDATION_ERROR", Some([Detail(field, message)]))
  }

  /** The domain error raised when a reference row (a JobStatus) is missing. */
  const Internal: Error := Err(500, "INTERNAL_SERVER_ERROR", None)

  /** A key that looks like a generated id: it contains a dash and is longer
      than 20 characters. Detail endpoints look such keys up by id only. */
  predicate IdLike(key: string) {
    '-' in key && |key| > 20
  }
}
