/**
 * The Postgres tables the handlers touch, as a mutable store: `subscriptions` (rows in
 * the order a query returns them), `subscription_tokens` (token to subscriber id) and
 * `users` (user id to username and stored credential), plus the transaction that
 * `subscribe` opens over the first two.
 */
module Store {
  import opened Wrappers
  import opened Uuids
  import opened Errors

  /** The `status` column: `'pending_confirmation'` or `'confirmed'`. */
  datatype Status = PendingConfirmation | Confirmed

  datatype Subscription = Subscription(id: Uuid, email: string, name: string, status: Status)

  datatype User = User(username: string, password: string)

  /** A failed query, as `sqlx::Error` reports it; its text is not modelled. */
  const DatabaseError: Error := Error("error returned from database", None)

  function Ids(rows: seq<Subscription>): set<Uuid>
  {
    set i | 0 <= i < |rows| :: rows[i].id
  }

  /** `id` is the primary key of `subscriptions`. */
  predicate DistinctIds(rows: seq<Subscription>)
  {
    forall i, j :: 0 <= i < j < |rows| ==> rows[i].id != rows[j].id
  }

  /** Every token names a stored subscriber (`subscriber_id` references `subscriptions`). */
  predicate TokensReferToRows(tokens: map<string, Uuid>, rows: seq<Subscription>)
  {
    forall t :: t in tokens ==> tokens[t] in Ids(rows)
  }

  /** `UPDATE subscriptions SET status = 'confirmed' WHERE id = $1` applied to the rows. */
  function MarkConfirmed(rows: seq<Subscription>, id: Uuid): (rows': seq<Subscription>)
    ensures |rows'| == |rows|
    ensures forall i :: 0 <= i < |rows| ==>
      rows'[i] == if rows[i].id == id then rows[i].(status := Confirmed) else rows[i]
  {
    seq(|rows|, i requires 0 <= i < |rows| => if rows[i].id == id then rows[i].(status := Confirmed) else rows[i])
  }

  /** A new row with a fresh id and a token naming it keep the key and the reference intact. */
  lemma AddSubscriberKeepsIntegrity(rows: seq<Subscription>, tokens: map<string, Uuid>, row: Subscription, token: string)
    requires DistinctIds(rows) && TokensReferToRows(tokens, rows) && row.id !in Ids(rows)
    ensures DistinctIds(rows + [row]) && TokensReferToRows(tokens[token := row.id], rows + [row])
  {
    var rows' := rows + [row];
    var tokens' := tokens[token := row.id];
    assert rows'[|rows|] == row;
    forall t | t in tokens' ensures tokens'[t] in Ids(rows') {
      if t != token {
        var i :| 0 <= i < |rows| && rows[i].id == tokens[t];
        assert rows'[i] == rows[i];
      }
    }
    forall i, j | 0 <= i < j < |rows'| ensures rows'[i].id != rows'[j].id {
      if j == |rows| {
        assert rows[i].id in Ids(rows);
      }
    }
  }

  class Database {
    var subscriptions: seq<Subscription>
    var tokens: map<string, Uuid>
    var users: map<Uuid, User>

    ghost predicate Valid()
      reads this
    {
      DistinctIds(subscriptions) && TokensReferToRows(tokens, subscriptions)
    }

    constructor (users: map<Uuid, User>)
      ensures Valid() && subscriptions == [] && tokens == map[] && this.users == users
    {
      subscriptions := [];
      tokens := map[];
      this.users := users;
    }

    /** `SELECT subscriber_id FROM subscription_tokens WHERE subscription_token = $1`. */
    function SubscriberIdFromToken(token: string, queryFails: bool): (r: Result<Option<Uuid>, Error>)
      reads this
      ensures queryFails <==> r.Failure?
      ensures r.Success? ==> (r.value.Some? <==> token in tokens)
      ensures r.Success? && r.value.Some? ==> r.value.value == tokens[token]
    {
      if queryFails then Failure(DatabaseError)
      else if token in tokens then Success(Some(tokens[token]))
      else Success(None)
    }

    /** `confirm_subscriber`: a failed update changes nothing. */
    method ConfirmSubscriber(id: Uuid, updateFails: bool) returns (r: Result<(), Error>)
      requires Valid()
      modifies this`subscriptions
      ensures Valid()
      ensures r.Success? <==> !updateFails
      ensures r.Failure? ==> r.error == DatabaseError
      ensures subscriptions == if updateFails then old(subscriptions) else MarkConfirmed(old(subscriptions), id)
    {
      if updateFails {
        return Failure(DatabaseError);
      }
      subscriptions := MarkConfirmed(subscriptions, id);
      assert Ids(subscriptions) == Ids(old(subscriptions)) by {
        forall x | x in Ids(old(subscriptions)) ensures x in Ids(subscriptions) {
          var i :| 0 <= i < |old(subscriptions)| && old(subscriptions)[i].id == x;
          assert subscriptions[i].id == x;
        }
      }
      r := Success(());
    }

    /** `SELECT username FROM users WHERE user_id = $1`, which fails when there is no such user. */
    function GetUsername(userId: Uuid, queryFails: bool): (r: Result<string, Error>)
      reads this
      ensures r.Success? <==> !queryFails && userId in users
      ensures r.Success? ==> r.value == users[userId].username
    {
      if queryFails || userId !in users then Failure(DatabaseError) else Success(users[userId].username)
    }

    /** Replaces the stored credential of one user; a failed update changes nothing. */
    method UpdatePassword(userId: Uuid, newPassword: string, updateFails: bool) returns (r: Result<(), Error>)
      requires userId in users
      modifies this`users
      ensures r.Success? <==> !updateFails
      ensures r.Failure? ==> r.error == DatabaseError
      ensures users == if updateFails then old(users)
                       else old(users)[userId := old(users)[userId].(password := newPassword)]
    {
      if updateFails {
        return Failure(DatabaseError);
      }
      users := users[userId := users[userId].(password := newPassword)];
      r := Success(());
    }
  }

  /**
   * An open transaction: the rows it has written so far, invisible to the database
   * until `Commit`. Dropping it without committing is a rollback.
   */
  class Transaction {
    const db: Database
    var subscriptions: seq<Subscription>
    var tokens: map<string, Uuid>

    constructor Begin(db: Database)
      ensures this.db == db && subscriptions == db.subscriptions && tokens == db.tokens
    {
      this.db := db;
      subscriptions := db.subscriptions;
      tokens := db.tokens;
    }

    /** `INSERT INTO subscriptions`, refused when the id is already taken. */
    method InsertSubscription(row: Subscription, insertFails: bool) returns (r: Result<(), Error>)
      modifies this`subscriptions
      ensures r.Success? <==> !insertFails && row.id !in Ids(old(subscriptions))
      ensures r.Failure? ==> r.error == DatabaseError
      ensures subscriptions == if r.Success? then old(subscriptions) + [row] else old(subscriptions)
    {
      if insertFails || row.id in Ids(subscriptions) {
        return Failure(DatabaseError);
      }
      subscriptions := subscriptions + [row];
      r := Success(());
    }

    /** `INSERT INTO subscription_tokens`, refused when the token is already stored. */
    method InsertToken(token: string, subscriberId: Uuid, insertFails: bool) returns (r: Result<(), Error>)
      modifies this`tokens
      ensures r.Success? <==> !insertFails && token !in old(tokens)
      ensures r.Failure? ==> r.error == DatabaseError
      ensures tokens == if r.Success? then old(tokens)[token := subscriberId] else old(tokens)
    {
      if insertFails || token in tokens {
        return Failure(DatabaseError);
      }
      tokens := tokens[token := subscriberId];
      r := Success(());
    }

    /** `transaction.commit()`: all of the transaction's writes become visible at once. */
    method Commit(commitFails: bool) returns (r: Result<(), Error>)
      modifies db
      ensures r.Success? <==> !commitFails
      ensures r.Failure? ==> r.error == DatabaseError
      ensures db.users == old(db.users)
      ensures r.Success? ==> db.subscriptions == subscriptions && db.tokens == tokens
      ensures r.Failure? ==> db.subscriptions == old(db.subscriptions) && db.tokens == old(db.tokens)
    {
      if commitFails {
        return Failure(DatabaseError);
      }
      db.subscriptions := subscriptions;
      db.tokens := tokens;
      r := Success(());
    }
  }
}
