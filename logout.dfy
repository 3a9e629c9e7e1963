/**
 * `POST /admin/logout`: every request ends on the login page; a logged-in session is
 * cleared first and the page then says so.
 */
module Logout {
  import opened Wrappers
  import opened Http
  import Sessions
  import Middleware

  const LoggedOut: string := "You have been successfully logged out."

  /** `logout`. */
  method Logout(session: Sessions.Session) returns (r: Response)
    modifies session
    ensures r.status == SeeOther && LocationOf(r) == Some("/login")
    ensures old(session.GetUserId()).None? ==> r.flash == None && session.entries == old(session.entries)
    ensures old(session.GetUserId()).Some? ==> r.flash == Some(Flash(InfoLevel, LoggedOut)) && session.entries == map[]
    ensures Middleware.Gate(session.GetUserId()).Rejected?
  {
    if session.GetUserId().None? {
      return RedirectTo("/login", None);
    }
    session.Logout();
    r := RedirectTo("/login", InfoFlash(LoggedOut));
  }
}
