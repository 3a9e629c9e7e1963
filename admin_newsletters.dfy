/**
 * The admin `POST /admin/newsletters` route: the same fan-out as the legacy route for a
 * logged-in user, answered with a redirect back to the form and an info flash.
 */
module AdminNewsletters {
  import opened Wrappers
  import opened Http
  import opened Errors
  import opened Domain
  import opened Email
  import opened Fanout
  import Store

  const PublishedMessage: string := "The newsletter has been published."

  /** The answer to a publication that went through. */
  function Published(): (r: Response)
    ensures r.status == SeeOther && LocationOf(r) == Some("/admin/newsletters")
    ensures r.flash == Some(Flash(InfoLevel, PublishedMessage))
  {
    RedirectTo("/admin/newsletters", InfoFlash(PublishedMessage))
  }

  /**
   * `publish_newsletter` of the admin area: the user is already authenticated by the
   * middleware, so failures are database or send errors only.
   */
  method PublishNewsletter(db: Store.Database, client: EmailClient, issue: Issue, queryFails: bool,
                           parse: string -> Result<SubscriberEmail, string>)
    returns (r: Result<Response, PublishError>)
    modifies client`outbox
    ensures queryFails ==>
      r == Failure(UnexpectedError(Store.DatabaseError)) && client.outbox == old(client.outbox)
    ensures !queryFails ==>
      var subscribers := GetConfirmedSubscribers(db.subscriptions, false, parse).value;
      var (sent, outcome) := Publish(subscribers, issue, client.accepts);
      client.outbox == old(client.outbox) + sent &&
      r == if outcome.Success? then Success(Published()) else Failure(UnexpectedError(outcome.error))
  {
    var query := GetConfirmedSubscribers(db.subscriptions, queryFails, parse);
    if query.Failure? {
      return Failure(UnexpectedError(query.error));
    }
    var delivered := DeliverIssue(client, query.value, issue);
    if delivered.Failure? {
      return Failure(UnexpectedError(delivered.error));
    }
    r := Success(Published());
  }

  /**
   * The flash "published" is shown only when every confirmed subscriber with a valid
   * address was sent the issue. The last conjunct, that a failing send answers 500,
   * is a corollary of the contracts of `FromError` and `PublishErrorResponse`.
   */
  lemma PublishedOnlyWhenAllSent(rows: seq<Store.Subscription>, parse: string -> Result<SubscriberEmail, string>,
                                 issue: Issue, accepts: EmailMessage -> bool)
    ensures var subscribers := GetConfirmedSubscribers(rows, false, parse).value;
      var (sent, outcome) := Publish(subscribers, issue, accepts);
      (outcome.Success? <==> sent == Deliveries(subscribers, issue)) &&
      (outcome.Success? ==> forall i :: (0 <= i < |rows| && rows[i].status == Store.Confirmed &&
        parse(rows[i].email).Success?) ==> IssueTo(parse(rows[i].email).value, issue) in sent) &&
      (outcome.Failure? ==> PublishErrorResponse(UnexpectedError(outcome.error)).status == InternalServerError)
  {
    var subscribers := GetConfirmedSubscribers(rows, false, parse).value;
    PublishStopsAtFirstRefusal(subscribers, issue, accepts);
    forall i | 0 <= i < |rows| && rows[i].status == Store.Confirmed && parse(rows[i].email).Success?
      ensures IssueTo(parse(rows[i].email).value, issue) in Deliveries(subscribers, issue)
    {
      ConfirmedSubscribersArePlanned(rows, parse, issue, i);
    }
  }
}
