/**
 * How the B2 client turns an HTTP reply into a value or a classified `StorageError`
 * (file-store/src/backends/b2.rs: `request`, `generate_error`, `api_url`).
 * The reply body is already parsed: `None` stands for a body that did not parse.
 */
module B2Errors {
  import opened Wrappers
  import opened Paths
  import opened Types

  /** The API version segment of every B2 URL (the protocol crate's `b2::v2`). */
  const B2Version := "v2"

  const AuthorizeAccount := "b2_authorize_account"

  /** B2's JSON error body `{status, code, message}`. */
  datatype ErrorResponse = ErrorResponse(status: nat, code: string, message: string)

  /** An HTTP reply: its status, the parsed success body and the parsed error body. */
  datatype Reply<T> = Reply(status: nat, body: Option<T>, errorBody: Option<ErrorResponse>)

  predicate IsSuccess(status: nat) {
    200 <= status < 300
  }

  /** `api_url`: `{host}/b2api/{version}/{method}`. */
  function ApiUrl(host: string, api: string): (url: string)
    ensures StringStartsWith(url, host)
    ensures |url| == |host| + |"/b2api/" + B2Version + "/"| + |api|
    ensures url[|url| - |api|..] == api
    ensures url[|host|..|url| - |api|] == "/b2api/" + B2Version + "/"
  {
    host + "/b2api/" + B2Version + "/" + api
  }

  /** Decimal rendering of a status code for messages. */
  function Decimal(n: nat): string
    decreases n
  {
    if n < 10 then [Digit(n)] else Decimal(n / 10) + [Digit(n % 10)]
  }

  function Digit(d: nat): char
    requires d < 10
  {
    "0123456789"[d]
  }

  /** The (status, code) pairs the table recognises for every api. */
  predicate KnownPair(status: nat, code: string) {
    || (status == 400 && code in {"bad_request", "invalid_bucket_id", "out_of_range"})
    || (status == 401 && code in {"unauthorized", "bad_auth_token", "expired_auth_token", "unsupported"})
    || (status == 503 && code == "bad_request")
  }

  /**
   * `generate_error`: classifies a failed call. The authorization-specific arm comes first,
   * so a 401 `bad_auth_token` means wrong credentials during authorization and an expired
   * token anywhere else.
   */
  function GenerateError(api: string, path: ObjectPath, response: Option<ErrorResponse>): (e: StorageError)
    ensures e.kind == InvalidData <==> response.None?
    ensures e.kind == AccessDenied <==>
      response.Some? && response.value.status == 401 &&
      (response.value.code == "unauthorized" || (response.value.code == "bad_auth_token" && api == AuthorizeAccount))
    ensures e.kind == AccessExpired <==>
      response.Some? && response.value.status == 401 &&
      (response.value.code == "expired_auth_token" || (response.value.code == "bad_auth_token" && api != AuthorizeAccount))
    ensures e.kind == NotFound <==>
      response.Some? && response.value.status == 400 && response.value.code == "invalid_bucket_id"
    ensures e.kind == NotFound ==> e.path == Some(path)
    ensures e.kind == InternalError <==>
      response.Some? &&
      ((response.value.status == 400 && response.value.code in {"bad_request", "out_of_range"}) ||
       (response.value.status == 401 && response.value.code == "unsupported"))
    ensures e.kind == ConnectionFailed <==>
      response.Some? && response.value.status == 503 && response.value.code == "bad_request"
    ensures e.kind == OtherError <==> response.Some? && !KnownPair(response.value.status, response.value.code)
    ensures e.kind in {InternalError, ConnectionFailed} ==> e.message == response.value.message
  {
    match response
    case None => Failure(InvalidData, "Unable to parse error response from " + api + ".")
    case Some(error) =>
      if api == AuthorizeAccount && error.status == 401 && error.code == "bad_auth_token" then
        Failure(AccessDenied, "The application key id or key were not recognized.")
      else if error.status == 400 && error.code == "bad_request" then
        Failure(InternalError, error.message)
      else if error.status == 400 && error.code == "invalid_bucket_id" then
        NotFoundError(path)
      else if error.status == 400 && error.code == "out_of_range" then
        Failure(InternalError, error.message)
      else if error.status == 401 && error.code == "unauthorized" then
        Failure(AccessDenied, "The application key id or key were not recognized.")
      else if error.status == 401 && error.code == "bad_auth_token" then
        Failure(AccessExpired, "The authentication token is invalid.")
      else if error.status == 401 && error.code == "expired_auth_token" then
        Failure(AccessExpired, "The authentication token has expired.")
      else if error.status == 401 && error.code == "unsupported" then
        Failure(InternalError, error.message)
      else if error.status == 503 && error.code == "bad_request" then
        Failure(ConnectionFailed, error.message)
      else
        Failure(OtherError, "Unknown B2 API failure " + Decimal(error.status) + ": " + error.code + ", " + error.message)
  }

  /**
   * `request` after the body is read: a 2xx reply yields its parsed body (or InvalidData when it
   * does not parse); any other status is classified from the error body.
   */
  function Interpret<T>(api: string, path: ObjectPath, reply: Reply<T>): (r: StorageResult<T>)
    ensures r.Ok? <==> IsSuccess(reply.status) && reply.body.Some?
    ensures r.Ok? ==> r.value == reply.body.value
    ensures IsSuccess(reply.status) && r.Err? ==> r.error.kind == InvalidData
    ensures !IsSuccess(reply.status) ==> r == Err(GenerateError(api, path, reply.errorBody))
  {
    if IsSuccess(reply.status) then
      match reply.body
      case Some(b) => Ok(b)
      case None => Err(Failure(InvalidData, "Unable to parse response from " + api + "."))
    else
      Err(GenerateError(api, path, reply.errorBody))
  }

  /** A 503 reply is ConnectionFailed only with code `bad_request`; any other code falls through to OtherError. */
  lemma UnavailableIsOtherUnlessBadRequest(api: string, path: ObjectPath, code: string, message: string)
    requires code != "bad_request"
    ensures GenerateError(api, path, Some(ErrorResponse(503, code, message))).kind == OtherError
  {
  }

  /** The same 401 `bad_auth_token` pair means AccessDenied during authorization and AccessExpired elsewhere. */
  lemma BadAuthTokenDependsOnMethod(api: string, path: ObjectPath, message: string)
    ensures GenerateError(AuthorizeAccount, path, Some(ErrorResponse(401, "bad_auth_token", message))).kind == AccessDenied
    ensures api != AuthorizeAccount ==>
      GenerateError(api, path, Some(ErrorResponse(401, "bad_auth_token", message))).kind == AccessExpired
  {
  }
}
