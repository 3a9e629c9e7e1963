/**
 * `GET /subscriptions/confirm?subscription_token=…`: the token is looked up; an unknown
 * token is answered 401, a known one marks its subscriber confirmed and is answered 200;
 * any failing query is answered 500.
 */
module SubscriptionsConfirm {
  import opened Wrappers
  import opened Http
  import opened Uuids
  import Store
  import Fanout

  /** `confirm`: the status returned and, on 200, the one update made. */
  method Confirm(db: Store.Database, token: string, lookupFails: bool, updateFails: bool)
    returns (status: StatusCode)
    requires db.Valid()
    modifies db`subscriptions
    ensures db.Valid()
    ensures lookupFails ==> status == InternalServerError && db.subscriptions == old(db.subscriptions)
    ensures !lookupFails && token !in db.tokens ==>
      status == Unauthorized && db.subscriptions == old(db.subscriptions)
    ensures !lookupFails && token in db.tokens && updateFails ==>
      status == InternalServerError && db.subscriptions == old(db.subscriptions)
    ensures !lookupFails && token in db.tokens && !updateFails ==>
      status == OK && db.subscriptions == Store.MarkConfirmed(old(db.subscriptions), db.tokens[token])
  {
    var lookup := db.SubscriberIdFromToken(token, lookupFails);
    if lookup.Failure? {
      return InternalServerError;
    }
    match lookup.value
    case None =>
      status := Unauthorized;
    case Some(subscriberId) =>
      var updated := db.ConfirmSubscriber(subscriberId, updateFails);
      if updated.Failure? {
        return InternalServerError;
      }
      status := OK;
  }

  /** Confirming twice is confirming once. */
  lemma MarkConfirmedIdempotent(rows: seq<Store.Subscription>, id: Uuid)
    ensures Store.MarkConfirmed(Store.MarkConfirmed(rows, id), id) == Store.MarkConfirmed(rows, id)
  {
  }

  /**
   * Confirmation only ever adds addresses to the confirmed list, and the confirmed
   * subscriber's address is on it afterwards.
   */
  lemma {:induction false} ConfirmingAddsOnly(rows: seq<Store.Subscription>, id: Uuid)
    ensures forall e :: e in Fanout.ConfirmedEmails(rows) ==> e in Fanout.ConfirmedEmails(Store.MarkConfirmed(rows, id))
    ensures forall i :: 0 <= i < |rows| && rows[i].id == id ==>
      rows[i].email in Fanout.ConfirmedEmails(Store.MarkConfirmed(rows, id))
  {
    var rows' := Store.MarkConfirmed(rows, id);
    forall e | e in Fanout.ConfirmedEmails(rows) ensures e in Fanout.ConfirmedEmails(rows') {
      var k :| 0 <= k < |Fanout.ConfirmedEmails(rows)| && Fanout.ConfirmedEmails(rows)[k] == e;
      Fanout.ConfirmedEmailsFromRows(rows, k);
      var i :| 0 <= i < |rows| && rows[i].status == Store.Confirmed && rows[i].email == e;
      Fanout.ConfirmedRowsAreReturned(rows', i);
    }
    forall i | 0 <= i < |rows| && rows[i].id == id ensures rows[i].email in Fanout.ConfirmedEmails(rows') {
      Fanout.ConfirmedRowsAreReturned(rows', i);
    }
  }

  /**
   * A pending subscriber becomes a newsletter recipient exactly by confirming: after the
   * token's update, the address of the row it names is returned by the confirmed query.
   */
  lemma ConfirmedByToken(rows: seq<Store.Subscription>, tokens: map<string, Uuid>, token: string)
    requires Store.TokensReferToRows(tokens, rows) && token in tokens
    ensures exists i :: (0 <= i < |rows| && rows[i].id == tokens[token] &&
      rows[i].email in Fanout.ConfirmedEmails(Store.MarkConfirmed(rows, tokens[token])))
  {
    var i :| 0 <= i < |rows| && rows[i].id == tokens[token];
    ConfirmingAddsOnly(rows, tokens[token]);
  }
}
