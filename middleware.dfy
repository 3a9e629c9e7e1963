/**
 * `reject_anonymous_users`, the middleware in front of the admin routes: a request whose
 * session holds a user id goes on to the handler with that id attached as `UserId`;
 * any other is sent to the login page with an error flash.
 */
module Middleware {
  import opened Wrappers
  import opened Http
  import opened Uuids
  import Sessions

  /** `UserId`: the logged-in user's id, printed as the id itself. */
  datatype UserId = UserId(uuid: Uuid)
  {
    /** `Deref`: the id inside, from which the `UserId` is rebuilt. */
    function Deref(): (u: Uuid)
      ensures UserId(u) == this
    {
      uuid
    }

    /** `Display`: the hyphenated hex form, from which the id can be read back. */
    function ToString(): (s: string)
      ensures |s| == 36 && ParseDisplay(s) == Some(Deref() as nat)
    {
      ParseDisplayOfDisplay(uuid);
      Display(uuid)
    }
  }

  /** The part of a request the middleware writes: the `UserId` request extension. */
  class Request {
    var userId: Option<UserId>

    constructor ()
      ensures userId == None
    {
      userId := None;
    }
  }

  /** Whether the request went on to the handler, or what it was answered with instead. */
  datatype Outcome = Forwarded | Rejected(response: Response)

  const NotLoggedIn: string := "The user is not logged in."

  /** The decision, as a function of the session's user id. */
  function Gate(sessionUser: Option<Uuid>): (o: Outcome)
    ensures o.Forwarded? <==> sessionUser.Some?
    ensures o.Rejected? ==> (o.response.status == SeeOther && LocationOf(o.response) == Some("/login")
      && o.response.flash == Some(Flash(ErrorLevel, NotLoggedIn)))
  {
    if sessionUser.Some? then Forwarded else Rejected(RedirectTo("/login", ErrorFlash(NotLoggedIn)))
  }

  /** `reject_anonymous_users`: the request reaches the handler only with the session's id attached. */
  method RejectAnonymousUsers(session: Sessions.Session, request: Request) returns (o: Outcome)
    modifies request
    ensures o == Gate(session.GetUserId())
    ensures session.GetUserId().Some? ==> request.userId == Some(UserId(session.GetUserId().value))
    ensures session.GetUserId().None? ==> request.userId == old(request.userId)
  {
    match session.GetUserId()
    case Some(id) =>
      request.userId := Some(UserId(id));
      o := Forwarded;
    case None =>
      o := Rejected(RedirectTo("/login", ErrorFlash(NotLoggedIn)));
  }

  /**
   * A session passes exactly while it holds a user id: one that had an id stored is
   * let through with that id, and a cleared one is turned away.
   */
  lemma GateFollowsSession(entries: map<string, Uuid>, userId: Uuid)
    ensures Gate(Sessions.UserIdIn(entries[Sessions.UserIdKey := userId])) == Forwarded
    ensures Sessions.UserIdIn(entries[Sessions.UserIdKey := userId]) == Some(userId)
    ensures Gate(Sessions.UserIdIn(map[])).Rejected?
  {
  }
}
