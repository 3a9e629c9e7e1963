/**
 * The slice of HTTP that the handlers produce: a status code, header pairs, a body,
 * the cookies a response sets and the flash message (axum_flash) it carries to the
 * next page.
 */
module Http {
  import opened Wrappers

  type StatusCode = int

  const OK: StatusCode := 200
  const SeeOther: StatusCode := 303
  const BadRequest: StatusCode := 400
  const Unauthorized: StatusCode := 401
  const InternalServerError: StatusCode := 500

  datatype Header = Header(name: string, value: string)

  datatype Cookie = Cookie(name: string, value: string, maxAgeSeconds: Option<int>)

  datatype FlashLevel = InfoLevel | ErrorLevel

  datatype Flash = Flash(level: FlashLevel, message: string)

  /** `flash.info(message)` and `flash.error(message)`. */
  function InfoFlash(message: string): Option<Flash> { Some(Flash(InfoLevel, message)) }
  function ErrorFlash(message: string): Option<Flash> { Some(Flash(ErrorLevel, message)) }

  datatype Response = Response(
    status: StatusCode,
    headers: seq<Header>,
    body: string,
    cookies: seq<Cookie>,
    flash: Option<Flash>)

  /** `status.into_response()`: the bare status, no headers, empty body. */
  function StatusOnly(status: StatusCode): (r: Response)
    ensures r.status == status && r.headers == [] && r.body == ""
  {
    Response(status, [], "", [], None)
  }

  /** `Redirect::to(location)`: a 303 See Other whose only header is `location`. */
  function RedirectTo(location: string, flash: Option<Flash>): (r: Response)
    ensures r.status == SeeOther && LocationOf(r) == Some(location) && r.flash == flash
  {
    Response(SeeOther, [Header("location", location)], "", [], flash)
  }

  /** The value of the first `location` header, if any. */
  function LocationOf(r: Response): Option<string>
  {
    HeaderValue(r.headers, "location")
  }

  function HeaderValue(headers: seq<Header>, name: string): Option<string>
  {
    if headers == [] then None
    else if headers[0].name == name then Some(headers[0].value)
    else HeaderValue(headers[1..], name)
  }
}
