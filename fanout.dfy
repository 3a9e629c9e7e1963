/**
 * The newsletter fan-out shared by both publish routes (the legacy JSON route and the
 * admin form route carry identical copies): read the confirmed subscribers, parse each
 * stored address, send the issue to every parsed address in query order, skip rows
 * whose address does not parse, and stop at the first send that fails.
 */
module Fanout {
  import opened Wrappers
  import opened Http
  import opened Errors
  import opened Domain
  import opened Email
  import Store

  /** The issue to publish: a title and the two renderings of its content. */
  datatype Issue = Issue(title: string, html: string, text: string)

  /** `PublishError`. */
  datatype PublishError = AuthError(source: Error) | UnexpectedError(inner: Error)
  {
    /**
     * The error as `std::error::Error` sees it: `AuthError` prints a fixed text and has
     * its payload as source; `UnexpectedError` is transparent.
     */
    function AsError(): (e: Error)
      ensures AuthError? ==> e.display == "Authentication failed" && e.source == Some(source)
      ensures UnexpectedError? ==> e == inner
    {
      match this
      case AuthError(source) => Error("Authentication failed", Some(source))
      case UnexpectedError(inner) => inner
    }
  }

  const WwwAuthenticate: Header := Header("www-authenticate", "Basic realm=\"publish\"")

  /** `PublishError::into_response`. */
  function PublishErrorResponse(e: PublishError): (r: Response)
    ensures e.UnexpectedError? ==> r == StatusOnly(InternalServerError)
    ensures e.AuthError? ==> (r.status == Unauthorized && r.body == ""
      && HeaderValue(r.headers, "www-authenticate") == Some("Basic realm=\"publish\""))
  {
    match e
    case UnexpectedError(_) => StatusOnly(InternalServerError)
    case AuthError(_) => StatusOnly(Unauthorized).(headers := [WwwAuthenticate])
  }

  /** The debug report of an authentication failure: the fixed text, then its cause chain. */
  lemma AuthErrorReport(source: Error)
    ensures ChainReport(AuthError(source).AsError())
      == "Authentication failed\n\n" + CausedByLine(source.display) + CausedByLines(Causes(source.source))
  {
    ContextReport(source, "Authentication failed");
  }

  /** `SELECT email FROM subscriptions WHERE status = 'confirmed'`, in table order. */
  function ConfirmedEmails(rows: seq<Store.Subscription>): (emails: seq<string>)
    ensures |emails| <= |rows|
  {
    if rows == [] then []
    else (if rows[0].status == Store.Confirmed then [rows[0].email] else []) + ConfirmedEmails(rows[1..])
  }

  /**
   * The query reads the table in order: the addresses of two stretches of rows are
   * those of the first stretch followed by those of the second.
   */
  lemma {:induction false} ConfirmedEmailsAppend(front: seq<Store.Subscription>, back: seq<Store.Subscription>)
    ensures ConfirmedEmails(front + back) == ConfirmedEmails(front) + ConfirmedEmails(back)
  {
    if front != [] {
      assert (front + back)[1..] == front[1..] + back;
      ConfirmedEmailsAppend(front[1..], back);
    } else {
      assert front + back == back;
    }
  }

  /** Each stored address parsed: a subscriber, or the parser's reason as an error. */
  function ParseSubscriber(email: string, parse: string -> Result<SubscriberEmail, string>): Result<SubscriberEmail, Error>
  {
    match parse(email)
    case Success(e) => Success(e)
    case Failure(reason) => Failure(Error(reason, None))
  }

  /** `get_confirmed_subscribers`. */
  function GetConfirmedSubscribers(rows: seq<Store.Subscription>, queryFails: bool,
                                   parse: string -> Result<SubscriberEmail, string>)
    : (r: Result<seq<Result<SubscriberEmail, Error>>, Error>)
    ensures r.Failure? <==> queryFails
    ensures r.Failure? ==> r.error == Store.DatabaseError
    ensures r.Success? ==> (|r.value| == |ConfirmedEmails(rows)|
      && forall i :: 0 <= i < |r.value| ==>
           r.value[i] == ParseSubscriber(ConfirmedEmails(rows)[i], parse))
  {
    if queryFails then Failure(Store.DatabaseError)
    else
      var emails := ConfirmedEmails(rows);
      Success(seq(|emails|, i requires 0 <= i < |emails| => ParseSubscriber(emails[i], parse)))
  }

  function IssueTo(email: SubscriberEmail, issue: Issue): EmailMessage
  {
    EmailMessage(email.address, issue.title, issue.html, issue.text)
  }

  /** The error a failed send is returned as: `with_context` naming the recipient. */
  function SendError(email: SubscriberEmail): (e: Error)
    ensures e.source == Some(SendFailure)
    ensures "Failed to send newsletter issue to " <= e.display
    ensures e.display[|"Failed to send newsletter issue to "|..] == email.address
  {
    WithContext(SendFailure, "Failed to send newsletter issue to " + email.address)
  }

  /** The subscribers whose address parsed, in query order. */
  function Parsed(subscribers: seq<Result<SubscriberEmail, Error>>): (emails: seq<SubscriberEmail>)
    ensures |emails| <= |subscribers|
    ensures (forall i :: 0 <= i < |subscribers| ==> subscribers[i].Failure?) ==> emails == []
  {
    if subscribers == [] then []
    else (if subscribers[0].Success? then [subscribers[0].value] else []) + Parsed(subscribers[1..])
  }

  /** Every message the issue is meant for: one per parsed subscriber, in order. */
  function Deliveries(subscribers: seq<Result<SubscriberEmail, Error>>, issue: Issue): (plan: seq<EmailMessage>)
    ensures |plan| <= |subscribers|
    ensures (forall i :: 0 <= i < |subscribers| ==> subscribers[i].Failure?) ==> plan == []
  {
    if subscribers == [] then []
    else match subscribers[0]
      case Success(email) => [IssueTo(email, issue)] + Deliveries(subscribers[1..], issue)
      case Failure(_) => Deliveries(subscribers[1..], issue)
  }

  /**
   * The loop, step by step: the messages the provider accepted and how the loop ended.
   * A subscriber that did not parse is skipped; the first refused send ends the loop.
   */
  function Publish(subscribers: seq<Result<SubscriberEmail, Error>>, issue: Issue,
                   accepts: EmailMessage -> bool): (p: (seq<EmailMessage>, Result<(), Error>))
    ensures |p.0| <= |Deliveries(subscribers, issue)|
    ensures p.1.Failure? ==> p.1.error.source == Some(SendFailure)
  {
    if subscribers == [] then ([], Success(()))
    else match subscribers[0]
      case Failure(_) => Publish(subscribers[1..], issue, accepts)
      case Success(email) =>
        if !accepts(IssueTo(email, issue)) then ([], Failure(SendError(email)))
        else
          var rest := Publish(subscribers[1..], issue, accepts);
          ([IssueTo(email, issue)] + rest.0, rest.1)
  }

  /** The recipient of every message the issue was meant for. */
  function Recipient(subscriber: Result<SubscriberEmail, Error>): Option<string>
  {
    if subscriber.Success? then Some(subscriber.value.address) else None
  }

  /**
   * The loop ends well exactly when the provider accepts every message the issue is
   * meant for, and then every one of them was sent; otherwise the sent messages are
   * the accepted prefix, the next one is the first refused, and the error names its
   * recipient.
   */
  lemma {:induction false} PublishStopsAtFirstRefusal(subscribers: seq<Result<SubscriberEmail, Error>>,
                                                       issue: Issue, accepts: EmailMessage -> bool)
    ensures var (sent, outcome) := Publish(subscribers, issue, accepts);
      var plan := Deliveries(subscribers, issue);
      sent <= plan &&
      (forall i :: 0 <= i < |sent| ==> accepts(sent[i])) &&
      (outcome.Success? <==> forall i :: 0 <= i < |plan| ==> accepts(plan[i])) &&
      (outcome.Success? ==> sent == plan) &&
      (outcome.Failure? ==> (|sent| < |plan| && !accepts(plan[|sent|]) &&
        outcome.error == WithContext(SendFailure, "Failed to send newsletter issue to " + plan[|sent|].recipient)))
  {
    if subscribers != [] {
      PublishStopsAtFirstRefusal(subscribers[1..], issue, accepts);
      match subscribers[0]
      case Failure(_) =>
      case Success(email) =>
        var plan := Deliveries(subscribers, issue);
        var m := IssueTo(email, issue);
        assert plan == [m] + Deliveries(subscribers[1..], issue);
        if accepts(m) {
          var rest := Publish(subscribers[1..], issue, accepts);
          var restPlan := Deliveries(subscribers[1..], issue);
          if rest.1.Success? {
            forall i | 0 <= i < |plan| ensures accepts(plan[i]) {
              if i > 0 { assert plan[i] == restPlan[i - 1]; }
            }
          } else {
            assert plan[|rest.0| + 1] == restPlan[|rest.0|];
          }
        } else {
          assert plan[0] == m;
        }
    }
  }

  /** Every message the issue is meant for goes to a parsed subscriber, in order. */
  lemma {:induction false} DeliveriesAreParsedSubscribers(subscribers: seq<Result<SubscriberEmail, Error>>, issue: Issue)
    ensures forall m :: m in Deliveries(subscribers, issue) ==>
      m.subject == issue.title && m.htmlBody == issue.html && m.textBody == issue.text &&
      exists i :: 0 <= i < |subscribers| && Recipient(subscribers[i]) == Some(m.recipient)
  {
    if subscribers != [] {
      DeliveriesAreParsedSubscribers(subscribers[1..], issue);
      forall m | m in Deliveries(subscribers, issue)
        ensures exists i :: 0 <= i < |subscribers| && Recipient(subscribers[i]) == Some(m.recipient)
      {
        if m in Deliveries(subscribers[1..], issue) {
          var j :| 0 <= j < |subscribers[1..]| && Recipient(subscribers[1..][j]) == Some(m.recipient);
          assert Recipient(subscribers[j + 1]) == Some(m.recipient);
        } else {
          assert Recipient(subscribers[0]) == Some(m.recipient);
        }
      }
    }
  }

  /** The plan is exactly the issue addressed to each parsed subscriber, in query order. */
  lemma {:induction false} DeliveriesFollowParsed(subscribers: seq<Result<SubscriberEmail, Error>>, issue: Issue)
    ensures |Deliveries(subscribers, issue)| == |Parsed(subscribers)|
    ensures forall j :: 0 <= j < |Parsed(subscribers)| ==>
      Deliveries(subscribers, issue)[j] == IssueTo(Parsed(subscribers)[j], issue)
  {
    if subscribers != [] {
      DeliveriesFollowParsed(subscribers[1..], issue);
    }
  }

  /** Every subscriber whose address parsed is meant to get the issue. */
  lemma {:induction false} EveryParsedSubscriberIsPlanned(subscribers: seq<Result<SubscriberEmail, Error>>,
                                                           issue: Issue, i: nat)
    requires i < |subscribers| && subscribers[i].Success?
    ensures IssueTo(subscribers[i].value, issue) in Deliveries(subscribers, issue)
  {
    if i > 0 {
      EveryParsedSubscriberIsPlanned(subscribers[1..], issue, i - 1);
      assert subscribers[1..][i - 1] == subscribers[i];
    }
  }

  /**
   * Every confirmed row whose stored address parses is meant to get the issue, at the
   * parsed address.
   */
  lemma ConfirmedSubscribersArePlanned(rows: seq<Store.Subscription>, parse: string -> Result<SubscriberEmail, string>,
                                       issue: Issue, i: nat)
    requires i < |rows| && rows[i].status == Store.Confirmed && parse(rows[i].email).Success?
    ensures IssueTo(parse(rows[i].email).value, issue) in Deliveries(GetConfirmedSubscribers(rows, false, parse).value, issue)
  {
    var subscribers := GetConfirmedSubscribers(rows, false, parse).value;
    ConfirmedRowsAreReturned(rows, i);
    var k :| 0 <= k < |ConfirmedEmails(rows)| && ConfirmedEmails(rows)[k] == rows[i].email;
    assert subscribers[k] == Success(parse(rows[i].email).value);
    EveryParsedSubscriberIsPlanned(subscribers, issue, k);
  }

  /**
   * Only confirmed subscribers are written to: every message the issue is meant for
   * goes to the parsed form of a confirmed subscriber's stored address.
   */
  lemma OnlyConfirmedSubscribers(rows: seq<Store.Subscription>, parse: string -> Result<SubscriberEmail, string>,
                                 issue: Issue, m: EmailMessage)
    requires m in Deliveries(GetConfirmedSubscribers(rows, false, parse).value, issue)
    ensures exists i :: (0 <= i < |rows| && rows[i].status == Store.Confirmed &&
      parse(rows[i].email) == Success(SubscriberEmail(m.recipient)))
  {
    var subscribers := GetConfirmedSubscribers(rows, false, parse).value;
    DeliveriesAreParsedSubscribers(subscribers, issue);
    var k :| 0 <= k < |subscribers| && Recipient(subscribers[k]) == Some(m.recipient);
    var email := ConfirmedEmails(rows)[k];
    ConfirmedEmailsFromRows(rows, k);
    var i :| 0 <= i < |rows| && rows[i].status == Store.Confirmed && rows[i].email == email;
    assert parse(rows[i].email) == Success(SubscriberEmail(m.recipient));
  }

  /** Each address the query returns is that of a confirmed row. */
  lemma {:induction false} ConfirmedEmailsFromRows(rows: seq<Store.Subscription>, k: nat)
    requires k < |ConfirmedEmails(rows)|
    ensures exists i :: 0 <= i < |rows| && rows[i].status == Store.Confirmed && rows[i].email == ConfirmedEmails(rows)[k]
  {
    var head := if rows[0].status == Store.Confirmed then [rows[0].email] else [];
    assert ConfirmedEmails(rows) == head + ConfirmedEmails(rows[1..]);
    if k < |head| {
      assert rows[0].email == ConfirmedEmails(rows)[k];
    } else {
      ConfirmedEmailsFromRows(rows[1..], k - |head|);
      var j :| 0 <= j < |rows[1..]| && rows[1..][j].status == Store.Confirmed && rows[1..][j].email == ConfirmedEmails(rows[1..])[k - |head|];
      assert rows[j + 1] == rows[1..][j];
    }
  }

  /** Every confirmed row's address is returned by the query. */
  lemma {:induction false} ConfirmedRowsAreReturned(rows: seq<Store.Subscription>, i: nat)
    requires i < |rows| && rows[i].status == Store.Confirmed
    ensures rows[i].email in ConfirmedEmails(rows)
  {
    if i > 0 {
      ConfirmedRowsAreReturned(rows[1..], i - 1);
      assert rows[1..][i - 1] == rows[i];
    }
  }

  /**
   * The send loop: for each subscriber in order, skip it if its address did not parse,
   * otherwise send it the issue and return the first failure with the recipient named.
   */
  method DeliverIssue(client: EmailClient, subscribers: seq<Result<SubscriberEmail, Error>>, issue: Issue)
    returns (r: Result<(), Error>)
    modifies client`outbox
    ensures client.outbox == old(client.outbox) + Publish(subscribers, issue, client.accepts).0
    ensures r == Publish(subscribers, issue, client.accepts).1
  {
    var k := 0;
    ghost var sent: seq<EmailMessage> := [];
    assert subscribers[0..] == subscribers;
    while k < |subscribers|
      invariant k <= |subscribers|
      invariant client.outbox == old(client.outbox) + sent
      invariant Publish(subscribers, issue, client.accepts).0 == sent + Publish(subscribers[k..], issue, client.accepts).0
      invariant Publish(subscribers, issue, client.accepts).1 == Publish(subscribers[k..], issue, client.accepts).1
    {
      assert subscribers[k..][1..] == subscribers[k + 1..];
      ghost var rest := Publish(subscribers[k + 1..], issue, client.accepts);
      if subscribers[k].Success? {
        var email := subscribers[k].value;
        var sendResult := client.SendEmail(email.address, issue.title, issue.html, issue.text);
        if sendResult.Failure? {
          assert sent + [] == sent;
          return Failure(SendError(email));
        }
        assert sent + ([IssueTo(email, issue)] + rest.0) == (sent + [IssueTo(email, issue)]) + rest.0;
        sent := sent + [IssueTo(email, issue)];
      }
      k := k + 1;
    }
    assert subscribers[k..] == [];
    assert sent + [] == sent;
    r := Success(());
  }
}
