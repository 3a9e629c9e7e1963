/**
 * The admin `POST /admin/password` route: the two new-password fields must agree, the
 * new password must be at least 12 and fewer than 128 bytes long, and the current
 * password must check out for the logged-in user before the stored credential changes.
 * Rejections go back to the form with an error flash; failures of the store answer 500.
 */
module AdminPassword {
  import opened Wrappers
  import opened Http
  import opened Errors
  import opened Uuids
  import opened Unicode
  import Authentication
  import Store

  datatype PasswordForm = PasswordForm(currentPassword: string, newPassword: string, newPasswordCheck: string)

  /** How the form's new password is judged, before any lookup. */
  datatype NewPasswordVerdict = Mismatch | TooShort | TooLong | Acceptable

  const MinLength: nat := 12
  const MaxLength: nat := 128

  /**
   * The three form checks in the order the handler makes them. `String::len` counts
   * UTF-8 bytes, so the bounds are on the encoded length.
   */
  function CheckNewPassword(form: PasswordForm): (v: NewPasswordVerdict)
    ensures v == Acceptable <==>
      form.newPassword == form.newPasswordCheck && MinLength <= ByteLength(form.newPassword) < MaxLength
    ensures v == Mismatch <==> form.newPassword != form.newPasswordCheck
    ensures v == TooShort <==> form.newPassword == form.newPasswordCheck && ByteLength(form.newPassword) < MinLength
    ensures v == TooLong <==> form.newPassword == form.newPasswordCheck && ByteLength(form.newPassword) >= MaxLength
  {
    if form.newPassword != form.newPasswordCheck then Mismatch
    else if ByteLength(form.newPassword) < MinLength then TooShort
    else if ByteLength(form.newPassword) >= MaxLength then TooLong
    else Acceptable
  }

  function RejectionMessage(v: NewPasswordVerdict): (m: string)
    ensures m == "" <==> v == Acceptable
    ensures m != IncorrectCurrentPassword && m != PasswordChanged
  {
    match v
    case Mismatch => "You entered two different new passwords - the field values must match."
    case TooShort => "Password needs to be at least 12 characters."
    case TooLong => "Password must be less than 128 characters."
    case Acceptable => ""
  }

  /** Each rejected verdict has a flash text of its own. */
  lemma RejectionMessagesDiffer(v: NewPasswordVerdict, w: NewPasswordVerdict)
    requires v != Acceptable && w != Acceptable
    ensures RejectionMessage(v) == RejectionMessage(w) <==> v == w
  {
  }

  const IncorrectCurrentPassword: string := "The current password is incorrect."
  const PasswordChanged: string := "Your password has been changed."

  /** Back to the form with an error-level flash. */
  function BackToForm(message: string): (r: Response)
    ensures r.status == SeeOther && LocationOf(r) == Some("/admin/password")
    ensures r.flash == Some(Flash(ErrorLevel, message))
  {
    RedirectTo("/admin/password", ErrorFlash(message))
  }

  /** For ASCII passwords the byte bounds are character bounds. */
  lemma AsciiLengthIsCharacterCount(form: PasswordForm)
    requires IsAscii(form.newPassword) && form.newPassword == form.newPasswordCheck
    ensures CheckNewPassword(form) == Acceptable <==> MinLength <= |form.newPassword| < MaxLength
  {
    ByteLengthOfAscii(form.newPassword);
  }

  /**
   * The bounds count bytes, not characters: eleven two-byte characters pass the
   * twelve-character minimum, and sixty-four of them are refused as too long.
   */
  lemma BoundsCountBytes()
    ensures var short := seq(11, _ => 'é');
      |short| < MinLength && CheckNewPassword(PasswordForm("", short, short)) == Acceptable
    ensures var long := seq(64, _ => 'é');
      |long| < MaxLength && CheckNewPassword(PasswordForm("", long, long)) == TooLong
  {
    var short := seq(11, _ => 'é');
    var long := seq(64, _ => 'é');
    TwoByteLength(short);
    TwoByteLength(long);
  }

  lemma {:induction false} TwoByteLength(s: string)
    requires forall i :: 0 <= i < |s| ==> s[i] == 'é'
    ensures ByteLength(s) == 2 * |s|
  {
    if s != [] {
      TwoByteLength(s[1..]);
      assert s == [s[0]] + s[1..];
      EncodeStringAppend([s[0]], s[1..]);
      assert EncodeString([s[0]]) == EncodeChar(s[0]) + EncodeString([]);
    }
  }

  /**
   * `change_password` for the logged-in user `userId`. `validate` is the credential
   * check; `usernameQueryFails` and `updateFails` say whether those queries fail.
   */
  method ChangePassword(db: Store.Database, userId: Uuid, form: PasswordForm,
                        validate: Authentication.CredentialCheck,
                        usernameQueryFails: bool, updateFails: bool)
    returns (r: Result<Response, ResponseError>)
    modifies db`users
    ensures CheckNewPassword(form) != Acceptable ==>
      r == Success(BackToForm(RejectionMessage(CheckNewPassword(form)))) && db.users == old(db.users)
    ensures CheckNewPassword(form) == Acceptable && old(db.GetUsername(userId, usernameQueryFails)).Failure? ==>
      r == Failure(FromError(Store.DatabaseError)) && db.users == old(db.users)
    ensures CheckNewPassword(form) == Acceptable && old(db.GetUsername(userId, usernameQueryFails)).Success? ==>
      var check := validate(Authentication.Credentials(old(db.users)[userId].username, form.currentPassword));
      (check.Failure? && check.error.InvalidCredentials? ==>
         r == Success(BackToForm(IncorrectCurrentPassword)) && db.users == old(db.users)) &&
      (check.Failure? && check.error.UnexpectedError? ==>
         r == Failure(FromError(check.error.cause)) && db.users == old(db.users)) &&
      (check.Success? && updateFails ==>
         r == Failure(FromError(Store.DatabaseError)) && db.users == old(db.users)) &&
      (check.Success? && !updateFails ==>
         r == Success(BackToForm(PasswordChanged)) &&
         db.users == old(db.users)[userId := old(db.users)[userId].(password := form.newPassword)])
  {
    var verdict := CheckNewPassword(form);
    if verdict != Acceptable {
      return Success(BackToForm(RejectionMessage(verdict)));
    }
    var username := db.GetUsername(userId, usernameQueryFails);
    if username.Failure? {
      return Failure(FromError(username.error));
    }
    var check := validate(Authentication.Credentials(username.value, form.currentPassword));
    if check.Failure? {
      match check.error
      case InvalidCredentials(_) =>
        return Success(BackToForm(IncorrectCurrentPassword));
      case UnexpectedError(cause) =>
        return Failure(FromError(cause));
    }
    var updated := db.UpdatePassword(userId, form.newPassword, updateFails);
    if updated.Failure? {
      return Failure(FromError(updated.error));
    }
    r := Success(BackToForm(PasswordChanged));
  }
}
