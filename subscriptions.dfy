/**
 * `POST /subscriptions`: validate the form, then in one transaction store the new
 * subscriber as pending together with a fresh 25-character confirmation token, commit,
 * and only then mail the confirmation link. An invalid form is answered 400, every
 * later failure 500.
 */
module Subscriptions {
  import opened Wrappers
  import opened Http
  import opened Errors
  import opened Uuids
  import opened Unicode
  import opened Domain
  import opened Email
  import Store
  import UrlEncoding
  import BasicAuth
  import Fanout

  datatype FormData = FormData(email: string, name: string)

  /** `NewSubscriber::try_from(form)`: the address is parsed first, then the name. */
  function ParseNewSubscriber(form: FormData, parsers: Parsers): (r: Result<NewSubscriber, string>)
    ensures r.Success? <==> parsers.email(form.email).Success? && parsers.name(form.name).Success?
    ensures r.Success? ==> r.value.email == parsers.email(form.email).value && r.value.name == parsers.name(form.name).value
    ensures parsers.email(form.email).Failure? ==> r == Failure(parsers.email(form.email).error)
    ensures parsers.email(form.email).Success? && parsers.name(form.name).Failure? ==>
      r == Failure(parsers.name(form.name).error)
  {
    match parsers.email(form.email)
    case Failure(reason) => Failure(reason)
    case Success(email) =>
      match parsers.name(form.name)
      case Failure(reason) => Failure(reason)
      case Success(name) => Success(NewSubscriber(email, name))
  }

  // Subscription tokens

  const TokenLength: nat := 25

  /** An index into rand's `Alphanumeric` set `A-Z a-z 0-9`, in that order. */
  type AlnumIndex = i: int | 0 <= i < 62

  function AlnumChar(i: AlnumIndex): (c: char)
    ensures IsAlphanumeric(c)
  {
    if i < 26 then ('A' as int + i) as char
    else if i < 52 then ('a' as int + (i - 26)) as char
    else ('0' as int + (i - 52)) as char
  }

  predicate IsAlphanumeric(c: char)
  {
    'A' <= c <= 'Z' || 'a' <= c <= 'z' || '0' <= c <= '9'
  }

  function AlnumIndexOf(c: char): (i: AlnumIndex)
    requires IsAlphanumeric(c)
    ensures AlnumChar(i) == c
  {
    if 'A' <= c <= 'Z' then c as int - 'A' as int
    else if 'a' <= c <= 'z' then c as int - 'a' as int + 26
    else c as int - '0' as int + 52
  }

  predicate IsSubscriptionToken(t: string)
  {
    |t| == TokenLength && forall i :: 0 <= i < |t| ==> IsAlphanumeric(t[i])
  }

  /**
   * `generate_subscription_token`: 25 draws from the alphanumeric set; `sample(k)` is
   * the k-th draw of the random generator.
   */
  function GenerateSubscriptionToken(sample: nat -> AlnumIndex): (t: string)
    ensures IsSubscriptionToken(t)
  {
    var t := seq(TokenLength, k requires 0 <= k => AlnumChar(sample(k)));
    assert forall i :: 0 <= i < |t| ==> t[i] == AlnumChar(sample(i));
    t
  }

  /** Every 25-character alphanumeric string is a token the generator can draw. */
  lemma EveryTokenCanBeDrawn(t: string)
    requires IsSubscriptionToken(t)
    ensures exists sample: nat -> AlnumIndex :: GenerateSubscriptionToken(sample) == t
  {
    var sample: nat -> AlnumIndex := (k: nat) => if k < |t| then AlnumIndexOf(t[k]) else 0;
    assert GenerateSubscriptionToken(sample) == t;
  }

  /** Tokens need no escaping in a URL: percent-encoding leaves them as they are. */
  lemma TokenIsUrlSafe(t: string)
    requires IsSubscriptionToken(t)
    ensures UrlEncoding.Encode(t) == t
  {
    UrlEncoding.EncodeUnreservedText(t);
  }

  // The confirmation email

  const ConfirmPath: string := "/subscriptions/confirm?subscription_token="

  function ConfirmationLink(baseUrl: string, token: string): (link: string)
    ensures |link| == |baseUrl| + |ConfirmPath| + |token|
    ensures baseUrl + ConfirmPath <= link && link[|baseUrl| + |ConfirmPath|..] == token
  {
    baseUrl + ConfirmPath + token
  }

  function PlainBody(link: string): string
  {
    "Welcome to our newsletter!\nVisit " + link + " to confirm your subscription."
  }

  function HtmlBody(link: string): string
  {
    "Welcome to our newsletter!<br />Click <a href=\"" + link + "\">here</a> to confirm your subscription."
  }

  /** The message `send_confirmation_email` hands to the email client. */
  function ConfirmationEmail(subscriber: NewSubscriber, baseUrl: string, token: string): (m: EmailMessage)
    ensures m.recipient == subscriber.email.address && m.subject == "Welcome!"
    ensures m.textBody == PlainBody(ConfirmationLink(baseUrl, token))
    ensures m.htmlBody == HtmlBody(ConfirmationLink(baseUrl, token))
  {
    var link := ConfirmationLink(baseUrl, token);
    EmailMessage(subscriber.email.address, "Welcome!", HtmlBody(link), PlainBody(link))
  }

  /** `part` appears in `text` starting at position `k`. */
  predicate OccursAt(text: string, part: string, k: int)
  {
    0 <= k <= |text| - |part| && text[k..k + |part|] == part
  }

  /** The email goes to the new subscriber and carries the link in both bodies. */
  lemma ConfirmationEmailCarriesLink(subscriber: NewSubscriber, baseUrl: string, token: string)
    ensures var m := ConfirmationEmail(subscriber, baseUrl, token);
      var link := ConfirmationLink(baseUrl, token);
      m.recipient == subscriber.email.address && m.subject == "Welcome!" &&
      (exists k :: OccursAt(m.textBody, link, k)) &&
      (exists k :: OccursAt(m.htmlBody, link, k))
  {
    var link := ConfirmationLink(baseUrl, token);
    var plainHead := "Welcome to our newsletter!\nVisit ";
    var htmlHead := "Welcome to our newsletter!<br />Click <a href=\"";
    assert PlainBody(link) == plainHead + link + " to confirm your subscription.";
    assert PlainBody(link)[|plainHead|..|plainHead| + |link|] == link;
    assert OccursAt(PlainBody(link), link, |plainHead|);
    assert HtmlBody(link) == htmlHead + link + "\">here</a> to confirm your subscription.";
    assert HtmlBody(link)[|htmlHead|..|htmlHead| + |link|] == link;
    assert OccursAt(HtmlBody(link), link, |htmlHead|);
  }

  /**
   * The link ends in the token, and that query value percent-decodes and UTF-8-decodes
   * to exactly the stored token, which the confirmation route looks up.
   */
  lemma LinkCarriesToken(baseUrl: string, token: string)
    requires IsSubscriptionToken(token)
    ensures BasicAuth.StripPrefix(ConfirmationLink(baseUrl, token), baseUrl + ConfirmPath) == Some(token)
    ensures UrlEncoding.DecodeBytes(token).Some? && DecodeUtf8(UrlEncoding.DecodeBytes(token).value) == Some(token)
  {
    assert ConfirmationLink(baseUrl, token) == (baseUrl + ConfirmPath) + token;
    TokenIsUrlSafe(token);
    UrlEncoding.DecodeEncode(EncodeString(token));
    Unicode.DecodeEncode(token);
  }

  /** `send_confirmation_email`. */
  method SendConfirmationEmail(client: EmailClient, subscriber: NewSubscriber, baseUrl: string, token: string)
    returns (r: Result<(), Error>)
    modifies client`outbox
    ensures var m := ConfirmationEmail(subscriber, baseUrl, token);
      (r.Success? <==> client.accepts(m)) && (r.Failure? ==> r.error == SendFailure) &&
      client.outbox == old(client.outbox) + (if client.accepts(m) then [m] else [])
  {
    var link := ConfirmationLink(baseUrl, token);
    r := client.SendEmail(subscriber.email.address, "Welcome!", HtmlBody(link), PlainBody(link));
  }

  // Errors

  /** `SubscribeError`: both cases print their payload. */
  datatype SubscribeError = ValidationError(message: string) | UnexpectedError(inner: Error)
  {
    function Display(): (s: string)
      ensures ValidationError? ==> s == message
      ensures UnexpectedError? ==> s == inner.display
    {
      match this
      case ValidationError(message) => message
      case UnexpectedError(inner) => inner.display
    }
  }

  /** `SubscribeError::into_response`: the error text as a plain-text body. */
  function SubscribeErrorResponse(e: SubscribeError): (r: Response)
    ensures r.status == (if e.ValidationError? then BadRequest else InternalServerError)
    ensures e.ValidationError? ==> r.body == e.message
    ensures e.UnexpectedError? ==> r.body == e.inner.display
  {
    TextResponse(if e.ValidationError? then BadRequest else InternalServerError, e.Display())
  }

  const StoreTokenMessage: string := "A database error occurred while trying to store a subscription token."

  /** `StoreTokenError(e)`: a fixed text, with the database error as its source. */
  function StoreTokenError(e: Error): (s: Error)
    ensures s.display == StoreTokenMessage && s.source == Some(e)
  {
    Error(StoreTokenMessage, Some(e))
  }

  const BeginContext: string := "Failed to acquire a Postgres connection from the pool."
  const InsertContext: string := "Failed to insert a new subscriber in the database"
  const StoreTokenContext: string := "Failed to store the confirmation token for a new subscriber"
  const CommitContext: string := "Failed to commit SQL transaction to store a new subscriber."
  const SendContext: string := "Failed to send a confirmation email."

  /**
   * The report of a failed token insert lists the context, the token error and the
   * database error, one "Caused by" entry per level.
   */
  lemma StoreTokenFailureReport()
    ensures ChainReport(WithContext(StoreTokenError(Store.DatabaseError), StoreTokenContext))
      == StoreTokenContext + "\n\n" + CausedByLine(StoreTokenMessage) + CausedByLine(Store.DatabaseError.display)
  {
    var e := WithContext(StoreTokenError(Store.DatabaseError), StoreTokenContext);
    assert Causes(e.source) == [StoreTokenMessage, Store.DatabaseError.display];
    assert CausedByLines([Store.DatabaseError.display]) == CausedByLine(Store.DatabaseError.display);
  }

  // The handler

  /** Which steps after validation fail: opening the transaction, the two inserts, the commit. */
  datatype SubscribeFaults = SubscribeFaults(beginFails: bool, insertFails: bool, storeTokenFails: bool, commitFails: bool)

  /**
   * The storage part of `subscribe`, step by step: nothing is stored unless the
   * transaction opens, the new id and the token are both unused, and the commit goes
   * through; the first failing step names itself in the error.
   */
  function StoreSubscriber(rows: seq<Store.Subscription>, tokens: map<string, Uuid>, newId: Uuid, token: string,
                           faults: SubscribeFaults): (r: Result<(), Error>)
    ensures faults.beginFails ==> r == Failure(WithContext(Store.DatabaseError, BeginContext))
    ensures r.Failure? ==> r.error.display in {BeginContext, InsertContext, StoreTokenContext, CommitContext}
  {
    if faults.beginFails then Failure(WithContext(Store.DatabaseError, BeginContext))
    else if faults.insertFails || newId in Store.Ids(rows) then Failure(WithContext(Store.DatabaseError, InsertContext))
    else if faults.storeTokenFails || token in tokens then
      Failure(WithContext(StoreTokenError(Store.DatabaseError), StoreTokenContext))
    else if faults.commitFails then Failure(WithContext(Store.DatabaseError, CommitContext))
    else Success(())
  }

  /**
   * `subscribe`. `newId` is the `Uuid::new_v4()` the insert draws, `sample` the random
   * draws of the token generator.
   */
  method Subscribe(db: Store.Database, client: EmailClient, baseUrl: string, form: FormData, parsers: Parsers,
                   newId: Uuid, sample: nat -> AlnumIndex, faults: SubscribeFaults)
    returns (r: Result<StatusCode, SubscribeError>)
    requires db.Valid()
    modifies db, client`outbox
    ensures db.Valid() && db.users == old(db.users)
    ensures ParseNewSubscriber(form, parsers).Failure? ==>
      r == Failure(ValidationError(ParseNewSubscriber(form, parsers).error)) &&
      db.subscriptions == old(db.subscriptions) && db.tokens == old(db.tokens) && client.outbox == old(client.outbox)
    ensures ParseNewSubscriber(form, parsers).Success? ==>
      var subscriber := ParseNewSubscriber(form, parsers).value;
      var token := GenerateSubscriptionToken(sample);
      var stored := StoreSubscriber(old(db.subscriptions), old(db.tokens), newId, token, faults);
      (stored.Failure? ==>
        r == Failure(UnexpectedError(stored.error)) &&
        db.subscriptions == old(db.subscriptions) && db.tokens == old(db.tokens) && client.outbox == old(client.outbox)) &&
      (stored.Success? ==>
        var m := ConfirmationEmail(subscriber, baseUrl, token);
        db.subscriptions == old(db.subscriptions) + [Store.Subscription(newId, subscriber.email.address, subscriber.name.value, Store.PendingConfirmation)] &&
        db.tokens == old(db.tokens)[token := newId] &&
        client.outbox == old(client.outbox) + (if client.accepts(m) then [m] else []) &&
        r == if client.accepts(m) then Success(OK) else Failure(UnexpectedError(WithContext(SendFailure, SendContext))))
  {
    var parsed := ParseNewSubscriber(form, parsers);
    if parsed.Failure? {
      return Failure(ValidationError(parsed.error));
    }
    var subscriber := parsed.value;
    if faults.beginFails {
      return Failure(UnexpectedError(WithContext(Store.DatabaseError, BeginContext)));
    }
    var transaction := new Store.Transaction.Begin(db);
    var row := Store.Subscription(newId, subscriber.email.address, subscriber.name.value, Store.PendingConfirmation);
    var inserted := transaction.InsertSubscription(row, faults.insertFails);
    if inserted.Failure? {
      return Failure(UnexpectedError(WithContext(inserted.error, InsertContext)));
    }
    var token := GenerateSubscriptionToken(sample);
    var tokenStored := transaction.InsertToken(token, newId, faults.storeTokenFails);
    if tokenStored.Failure? {
      return Failure(UnexpectedError(WithContext(StoreTokenError(tokenStored.error), StoreTokenContext)));
    }
    Store.AddSubscriberKeepsIntegrity(db.subscriptions, db.tokens, row, token);
    var committed := transaction.Commit(faults.commitFails);
    if committed.Failure? {
      return Failure(UnexpectedError(WithContext(committed.error, CommitContext)));
    }
    var sent := SendConfirmationEmail(client, subscriber, baseUrl, token);
    if sent.Failure? {
      return Failure(UnexpectedError(WithContext(sent.error, SendContext)));
    }
    r := Success(OK);
  }

  /**
   * Storing succeeds exactly when no step fails and both the id and the token are
   * unused; a failure after the commit (the email) leaves the subscriber stored.
   */
  lemma StoreSubscriberSucceedsIff(rows: seq<Store.Subscription>, tokens: map<string, Uuid>, newId: Uuid, token: string,
                                   faults: SubscribeFaults)
    ensures StoreSubscriber(rows, tokens, newId, token, faults).Success? <==>
      faults == SubscribeFaults(false, false, false, false) && newId !in Store.Ids(rows) && token !in tokens
    ensures StoreSubscriber(rows, tokens, newId, token, faults).Failure? ==>
      StoreSubscriber(rows, tokens, newId, token, faults).error.source.Some?
  {
  }

  /**
   * Subscribe, then follow the emailed link: the token stored for the new subscriber
   * names its row, and confirming with it puts the new address on the confirmed list.
   */
  lemma SubscribeThenConfirm(rows: seq<Store.Subscription>, tokens: map<string, Uuid>,
                             subscriber: NewSubscriber, newId: Uuid, token: string)
    requires Store.DistinctIds(rows) && Store.TokensReferToRows(tokens, rows) && newId !in Store.Ids(rows)
    ensures var rows' := rows + [Store.Subscription(newId, subscriber.email.address, subscriber.name.value, Store.PendingConfirmation)];
      var tokens' := tokens[token := newId];
      token in tokens' && tokens'[token] == newId &&
      subscriber.email.address in Fanout.ConfirmedEmails(Store.MarkConfirmed(rows', tokens'[token]))
  {
    var row := Store.Subscription(newId, subscriber.email.address, subscriber.name.value, Store.PendingConfirmation);
    var rows' := rows + [row];
    var confirmed := Store.MarkConfirmed(rows', newId);
    assert confirmed[|rows|].status == Store.Confirmed;
    Fanout.ConfirmedRowsAreReturned(confirmed, |rows|);
  }
}
