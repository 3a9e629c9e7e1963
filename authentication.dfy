/**
 * What the handlers use from the `authentication` module: the credentials a request
 * carries and the two ways `validate_credentials` can fail. The password check itself
 * (hash comparison against the `users` table) is not part of this model; handlers
 * receive its verdict as a function of the credentials.
 */
module Authentication {
  import opened Wrappers
  import opened Uuids
  import opened Errors

  datatype Credentials = Credentials(username: string, password: string)

  /**
   * `AuthError`, each case holding the `anyhow::Error` that `e.into()` turns it into
   * (its text is written by the authentication module).
   */
  datatype AuthError = InvalidCredentials(cause: Error) | UnexpectedError(cause: Error)

  /** `validate_credentials`: the id of the user the credentials belong to, or why not. */
  type CredentialCheck = Credentials -> Result<Uuid, AuthError>
}
