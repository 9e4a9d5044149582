/**
 * `UserError` (src/errors/user.rs): the error kinds of the user API, the HTTP
 * status each one maps to, its display text and the JSON error body.
 */
module UserErrors {

  datatype UserError =
    | Unauthorized
    | InvalidCredentials
    | UserNotFoundError
    | EmailAlreadyExistsError(email: string)
    | ValidationError(message: string)
    | InternalError

  const BAD_REQUEST: int := 400
  const UNAUTHORIZED: int := 401
  const NOT_FOUND: int := 404
  const INTERNAL_SERVER_ERROR: int := 500

  predicate IsClientError(code: int) { 400 <= code < 500 }

  /** `ResponseError::status_code`. */
  function StatusCode(e: UserError): (code: int)
    ensures code in {BAD_REQUEST, UNAUTHORIZED, NOT_FOUND, INTERNAL_SERVER_ERROR}
  {
    match e
    case EmailAlreadyExistsError(_) => BAD_REQUEST
    case ValidationError(_) => BAD_REQUEST
    case InvalidCredentials => UNAUTHORIZED
    case Unauthorized => UNAUTHORIZED
    case UserNotFoundError => NOT_FOUND
    case InternalError => INTERNAL_SERVER_ERROR
  }

  /** The `#[display(...)]` text of each variant. */
  function Display(e: UserError): (text: string)
    ensures e.ValidationError? ==> text == e.message
    ensures !e.ValidationError? ==> |text| > 0 && text[|text| - 1] == '.'
  {
    match e
    case Unauthorized => "Unauthorized."
    case InvalidCredentials => "Invalid credentials."
    case UserNotFoundError => "User does not exist."
    case EmailAlreadyExistsError(email) => "Email " + email + " is already taken."
    case ValidationError(message) => message
    case InternalError => "An internal error occurred. Please try again later."
  }

  /** The response `error_response` builds: status, content type and JSON object body. */
  datatype HttpResponse = HttpResponse(status: int, contentType: string, body: map<string, string>)

  const APPLICATION_JSON: string := "application/json"

  /** `ResponseError::error_response`: `{"error": <display text>}` with the variant's status. */
  function ErrorResponse(e: UserError): (resp: HttpResponse)
    ensures resp.status == StatusCode(e)
    ensures resp.contentType == APPLICATION_JSON
    ensures resp.body.Keys == {"error"} && resp.body["error"] == Display(e)
  {
    HttpResponse(StatusCode(e), APPLICATION_JSON, map["error" := Display(e)])
  }

  /** `From<ValidationErrors>`: `text` is the validator's rendering of the errors. */
  function FromValidationErrors(text: string): (e: UserError)
    ensures Display(e) == text
    ensures StatusCode(e) == BAD_REQUEST
  {
    ValidationError(text)
  }

  /** Every variant but `InternalError` is a client error; `InternalError` is 500. */
  lemma ClientErrorUnlessInternal(e: UserError)
    ensures IsClientError(StatusCode(e)) <==> e != InternalError
    ensures e == InternalError <==> StatusCode(e) == INTERNAL_SERVER_ERROR
  {
  }

  /** Exactly the two authentication failures answer 401, and they keep distinct texts. */
  lemma AuthenticationFailuresShare401(e: UserError)
    ensures StatusCode(e) == UNAUTHORIZED <==> e == Unauthorized || e == InvalidCredentials
    ensures Display(Unauthorized) != Display(InvalidCredentials)
  {
  }

  const EMAIL_PREFIX: string := "Email "
  const EMAIL_SUFFIX: string := " is already taken."

  /** Recovers the email from the display text of `EmailAlreadyExistsError`. */
  function TakenEmail(text: string): (email: string)
    requires |EMAIL_PREFIX| + |EMAIL_SUFFIX| <= |text|
  {
    text[|EMAIL_PREFIX|..|text| - |EMAIL_SUFFIX|]
  }

  /** The display text of `EmailAlreadyExistsError` names the email and gives it back unchanged. */
  lemma TakenEmailRoundTrip(email: string)
    ensures Display(EmailAlreadyExistsError(email)) == EMAIL_PREFIX + email + EMAIL_SUFFIX
    ensures TakenEmail(Display(EmailAlreadyExistsError(email))) == email
  {
  }
}
