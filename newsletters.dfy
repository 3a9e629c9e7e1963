/**
 * The legacy `POST /newsletters` route: Basic authentication, credential validation,
 * then the fan-out to confirmed subscribers; 200 when every send succeeded.
 */
module Newsletters {
  import opened Wrappers
  import opened Http
  import opened Errors
  import opened Uuids
  import opened Domain
  import opened Email
  import opened Fanout
  import Store
  import Authentication
  import BasicAuth

  /** `validate_credentials`' failure as a `PublishError`: invalid credentials are an auth failure. */
  function FromAuthError(e: Authentication.AuthError): (p: PublishError)
    ensures p.AuthError? <==> e.InvalidCredentials?
    ensures p.AuthError? ==> p.source == e.cause
    ensures p.UnexpectedError? ==> p.inner == e.cause
  {
    match e
    case InvalidCredentials(cause) => AuthError(cause)
    case UnexpectedError(cause) => UnexpectedError(cause)
  }

  /** The first two steps of the handler: credentials from the header, then their check. */
  function Authorize(headers: BasicAuth.HeaderMap, validate: Authentication.CredentialCheck)
    : (r: Result<Uuid, PublishError>)
    ensures BasicAuth.BasicAuthentication(headers).Failure? ==>
      r == Failure(AuthError(BasicAuth.BasicAuthentication(headers).error.AsError()))
    ensures r.Success? ==> (BasicAuth.BasicAuthentication(headers).Success? &&
      validate(BasicAuth.BasicAuthentication(headers).value) == Success(r.value))
  {
    match BasicAuth.BasicAuthentication(headers)
    case Failure(f) => Failure(AuthError(f.AsError()))
    case Success(credentials) =>
      match validate(credentials)
      case Success(userId) => Success(userId)
      case Failure(e) => Failure(FromAuthError(e))
  }

  /**
   * A request is let through exactly when it carries `Basic` credentials `u:p` (with
   * no colon in `u`) that the check accepts; it is answered 401 when the header is
   * missing or malformed or the check says the credentials are invalid, and 500 only
   * when the check itself failed.
   */
  lemma AuthorizeCases(headers: BasicAuth.HeaderMap, validate: Authentication.CredentialCheck)
    ensures var r := Authorize(headers, validate);
      (r.Success? <==> exists u, p :: (':' !in u &&
         BasicAuth.AuthorizationHeader in headers &&
         headers[BasicAuth.AuthorizationHeader] == BasicAuth.AuthorizationValue(u, p) &&
         validate(Authentication.Credentials(u, p)).Success?)) &&
      (r.Failure? && r.error.UnexpectedError? <==>
         BasicAuth.BasicAuthentication(headers).Success? &&
         validate(BasicAuth.BasicAuthentication(headers).value).Failure? &&
         validate(BasicAuth.BasicAuthentication(headers).value).error.UnexpectedError?)
  {
    var r := Authorize(headers, validate);
    var b := BasicAuth.BasicAuthentication(headers);
    if b.Success? {
      var u, p := b.value.username, b.value.password;
      BasicAuth.SuccessIff(headers, u, p);
      if r.Success? {
        assert ':' !in u && headers[BasicAuth.AuthorizationHeader] == BasicAuth.AuthorizationValue(u, p);
      }
    }
    if exists u, p :: ':' !in u &&
         BasicAuth.AuthorizationHeader in headers &&
         headers[BasicAuth.AuthorizationHeader] == BasicAuth.AuthorizationValue(u, p) &&
         validate(Authentication.Credentials(u, p)).Success? {
      var u, p :| ':' !in u &&
         BasicAuth.AuthorizationHeader in headers &&
         headers[BasicAuth.AuthorizationHeader] == BasicAuth.AuthorizationValue(u, p) &&
         validate(Authentication.Credentials(u, p)).Success?;
      BasicAuth.SuccessIff(headers, u, p);
    }
  }

  /** `publish_newsletter`: nothing is sent unless the request is authorized. */
  method PublishNewsletter(db: Store.Database, client: EmailClient, headers: BasicAuth.HeaderMap, issue: Issue,
                           validate: Authentication.CredentialCheck, queryFails: bool,
                           parse: string -> Result<SubscriberEmail, string>)
    returns (r: Result<StatusCode, PublishError>)
    modifies client`outbox
    ensures Authorize(headers, validate).Failure? ==>
      r == Failure(Authorize(headers, validate).error) && client.outbox == old(client.outbox)
    ensures Authorize(headers, validate).Success? && queryFails ==>
      r == Failure(UnexpectedError(Store.DatabaseError)) && client.outbox == old(client.outbox)
    ensures Authorize(headers, validate).Success? && !queryFails ==>
      var subscribers := GetConfirmedSubscribers(db.subscriptions, false, parse).value;
      var (sent, outcome) := Publish(subscribers, issue, client.accepts);
      client.outbox == old(client.outbox) + sent &&
      r == if outcome.Success? then Success(OK) else Failure(UnexpectedError(outcome.error))
  {
    var authorized := Authorize(headers, validate);
    if authorized.Failure? {
      return Failure(authorized.error);
    }
    var query := GetConfirmedSubscribers(db.subscriptions, queryFails, parse);
    if query.Failure? {
      return Failure(UnexpectedError(query.error));
    }
    var delivered := DeliverIssue(client, query.value, issue);
    if delivered.Failure? {
      return Failure(UnexpectedError(delivered.error));
    }
    r := Success(OK);
  }
}
