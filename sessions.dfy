/**
 * `TypedSession`: the server-side session of a request, of which the handlers use one
 * entry, the logged-in user's id under the key `user_id`.
 */
module Sessions {
  import opened Wrappers
  import opened Uuids

  const UserIdKey: string := "user_id"

  /** `get_user_id` on a session's entries. */
  function UserIdIn(entries: map<string, Uuid>): (r: Option<Uuid>)
    ensures r.Some? <==> UserIdKey in entries
    ensures r.Some? ==> r.value == entries[UserIdKey]
  {
    if UserIdKey in entries then Some(entries[UserIdKey]) else None
  }

  class Session {
    var entries: map<string, Uuid>

    constructor (entries: map<string, Uuid>)
      ensures this.entries == entries
    {
      this.entries := entries;
    }

    function GetUserId(): Option<Uuid>
      reads this
    {
      UserIdIn(entries)
    }

    /** `insert_user_id`. */
    method InsertUserId(userId: Uuid)
      modifies this
      ensures entries == old(entries)[UserIdKey := userId]
      ensures GetUserId() == Some(userId)
    {
      entries := entries[UserIdKey := userId];
    }

    /** `logout`: the whole session is cleared. */
    method Logout()
      modifies this
      ensures entries == map[]
      ensures GetUserId() == None
    {
      entries := map[];
    }
  }
}
