/**
 * `POST /login`: the credentials from the form are checked; on success the answer is a
 * redirect to `/`, on failure a redirect back to `/login` with the error's text in a
 * one-second `_flash` cookie. `LoginError` also has its own response, a redirect that
 * carries the text percent-encoded in the query string.
 */
module Login {
  import opened Wrappers
  import opened Http
  import opened Errors
  import opened Unicode
  import Authentication
  import UrlEncoding

  datatype FormData = FormData(username: string, password: string)

  /** `LoginError`: a fixed text per case, the wrapped error as source. */
  datatype LoginError = AuthError(source: Error) | UnexpectedError(inner: Error)
  {
    function Message(): (m: string)
      ensures m == (if AuthError? then "Authentication failed" else "Something went wrong")
    {
      match this
      case AuthError(_) => "Authentication failed"
      case UnexpectedError(_) => "Something went wrong"
    }

    function AsError(): (e: Error)
      ensures e.display == Message()
      ensures AuthError? ==> e.source == Some(source)
      ensures UnexpectedError? ==> e.source == Some(inner)
    {
      match this
      case AuthError(source) => Error(Message(), Some(source))
      case UnexpectedError(inner) => Error(Message(), Some(inner))
    }
  }

  /** Invalid credentials are an authentication failure, anything else is unexpected. */
  function FromAuthError(e: Authentication.AuthError): (l: LoginError)
    ensures l.AuthError? <==> e.InvalidCredentials?
    ensures l.Message() == (if e.InvalidCredentials? then "Authentication failed" else "Something went wrong")
  {
    match e
    case InvalidCredentials(cause) => AuthError(cause)
    case UnexpectedError(cause) => UnexpectedError(cause)
  }

  const FlashCookieName: string := "_flash"

  /** `login`: `Ok` with the way in, or `Err` with the way back and the reason. */
  function Login(form: FormData, validate: Authentication.CredentialCheck): (r: Result<Response, Response>)
    ensures var verdict := validate(Authentication.Credentials(form.username, form.password));
      (r.Success? <==> verdict.Success?) &&
      (r.Success? ==> r.value.status == SeeOther && LocationOf(r.value) == Some("/") && r.value.cookies == []) &&
      (r.Failure? ==> (r.error.status == SeeOther && LocationOf(r.error) == Some("/login") &&
        r.error.cookies == [Cookie(FlashCookieName, FromAuthError(verdict.error).Message(), Some(1))]))
  {
    match validate(Authentication.Credentials(form.username, form.password))
    case Success(_) =>
      Success(Response(SeeOther, [Header("location", "/")], "", [], None))
    case Failure(e) =>
      var error := FromAuthError(e);
      Failure(Response(SeeOther, [Header("location", "/login")], "", [Cookie(FlashCookieName, error.Message(), Some(1))], None))
  }

  const ErrorQueryPrefix: string := "/login?error="

  /** `LoginError::into_response`: back to the login page, the text in the query string. */
  function LoginErrorResponse(e: LoginError): (r: Response)
    ensures r.status == SeeOther && r.body == ""
    ensures LocationOf(r) == Some(ErrorQueryPrefix + UrlEncoding.Encode(e.Message()))
  {
    Response(SeeOther, [Header("location", ErrorQueryPrefix + UrlEncoding.Encode(e.Message()))], "", [], None)
  }

  /**
   * The login page reads back exactly the error's text: the query value
   * percent-decodes and UTF-8-decodes to the message.
   */
  lemma ErrorQueryRoundTrip(e: LoginError)
    ensures var value := LocationOf(LoginErrorResponse(e)).value[|ErrorQueryPrefix|..];
      UrlEncoding.DecodeBytes(value).Some? && DecodeUtf8(UrlEncoding.DecodeBytes(value).value) == Some(e.Message())
  {
    var location := ErrorQueryPrefix + UrlEncoding.Encode(e.Message());
    assert location[|ErrorQueryPrefix|..] == UrlEncoding.Encode(e.Message());
    UrlEncoding.DecodeEncode(EncodeString(e.Message()));
    Unicode.DecodeEncode(e.Message());
  }
}
