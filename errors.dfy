/**
 * Errors as `std::error::Error` values (what `Display` prints and what `source()`
 * returns), the `error_chain_fmt` report every error type's `Debug` uses, and
 * `ResponseError`, the wrapper that turns an error into an HTTP response.
 */
module Errors {
  import opened Wrappers
  import opened Http

  /** An error: its `Display` text and the error it was caused by, if any. */
  datatype Error = Error(display: string, source: Option<Error>)

  /** `anyhow::Context::context`: a new message in front, the old error as its source. */
  function WithContext(inner: Error, message: string): (e: Error)
    ensures e.display == message && e.source == Some(inner)
  {
    Error(message, Some(inner))
  }

  /** The `Display` texts of the causes below an error, nearest first. */
  function Causes(source: Option<Error>): seq<string>
  {
    match source
    case None => []
    case Some(cause) => [cause.display] + Causes(cause.source)
  }

  function CausedByLine(cause: string): string
  {
    "Caused by:\n\t" + cause + "\n"
  }

  function CausedByLines(causes: seq<string>): string
  {
    if causes == [] then "" else CausedByLine(causes[0]) + CausedByLines(causes[1..])
  }

  /** The report `error_chain_fmt` writes: the error, a blank line, then each cause in order. */
  function ChainReport(e: Error): string
  {
    e.display + "\n\n" + CausedByLines(Causes(e.source))
  }

  lemma {:induction false} CausedByLinesAppend(causes: seq<string>, last: string)
    ensures CausedByLines(causes + [last]) == CausedByLines(causes) + CausedByLine(last)
  {
    if causes != [] {
      assert (causes + [last])[1..] == causes[1..] + [last];
      CausedByLinesAppend(causes[1..], last);
    }
  }

  /**
   * `error_chain_fmt(e, f)`: writes the error and then walks `source()` until it is
   * None, writing one "Caused by" entry per cause.
   */
  method ErrorChainFmt(e: Error) returns (out: string)
    ensures out == ChainReport(e)
  {
    out := e.display + "\n\n";
    var current := e.source;
    ghost var written: seq<string> := [];
    while current.Some?
      invariant Causes(e.source) == written + Causes(current)
      invariant out == e.display + "\n\n" + CausedByLines(written)
      decreases current
    {
      var cause := current.value;
      CausedByLinesAppend(written, cause.display);
      out := out + CausedByLine(cause.display);
      written := written + [cause.display];
      current := cause.source;
    }
    assert written + [] == written;
  }

  /** Adding context puts the old error at the head of the cause list, the rest unchanged. */
  lemma ContextReport(inner: Error, message: string)
    ensures Causes(WithContext(inner, message).source) == [inner.display] + Causes(inner.source)
    ensures ChainReport(WithContext(inner, message))
      == message + "\n\n" + CausedByLine(inner.display) + CausedByLines(Causes(inner.source))
  {
    var cs := Causes(WithContext(inner, message).source);
    assert cs[1..] == Causes(inner.source);
  }

  /** An error with no source is reported alone: the loop stops at the first missing source. */
  lemma ReportWithoutSource(display: string)
    ensures ChainReport(Error(display, None)) == display + "\n\n"
  {
  }

  /** `ResponseError`: the status to answer with and the error behind it. */
  datatype ResponseError = ResponseError(statusCode: StatusCode, internalError: Error)

  /** `ResponseError::new`. */
  function NewResponseError(statusCode: StatusCode, internalError: Error): (r: ResponseError)
    ensures r.statusCode == statusCode && r.internalError == internalError
  {
    ResponseError(statusCode, internalError)
  }

  /** `ResponseError::set_status`: a new status, the same error. */
  function SetStatus(r: ResponseError, statusCode: StatusCode): (r': ResponseError)
    ensures r'.statusCode == statusCode && r'.internalError == r.internalError
  {
    r.(statusCode := statusCode)
  }

  /** `impl From<E> for ResponseError`: every converted error answers 500. */
  function FromError(e: Error): (r: ResponseError)
    ensures r.statusCode == InternalServerError && r.internalError == e
  {
    ResponseError(InternalServerError, e)
  }

  /** `impl Display for ResponseError`: the wrapped error's text. */
  function Display(r: ResponseError): (s: string)
    ensures s == r.internalError.display
  {
    r.internalError.display
  }

  /**
   * What a handler's `?` on an error answers: 500 with the error's text as the body;
   * after `set_status` the new status with the same body.
   */
  lemma ConvertedErrorResponse(e: Error, status: StatusCode)
    ensures IntoResponse(FromError(e)).status == InternalServerError
    ensures IntoResponse(FromError(e)).body == e.display
    ensures IntoResponse(SetStatus(FromError(e), status)).status == status
    ensures IntoResponse(SetStatus(FromError(e), status)).body == e.display
  {
  }

  /** A `(status, String)` response: a plain-text body. */
  function TextResponse(status: StatusCode, body: string): (resp: Response)
    ensures resp.status == status && resp.body == body
  {
    Response(status, [Header("content-type", "text/plain; charset=utf-8")], body, [], None)
  }

  /** `ResponseError::into_response`: the stored status, the error's text as body. */
  function IntoResponse(r: ResponseError): (resp: Response)
    ensures resp.status == r.statusCode && resp.body == Display(r)
  {
    TextResponse(r.statusCode, r.internalError.display)
  }
}
