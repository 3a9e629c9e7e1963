# zero2prod newsletter backend: a Dafny model of its request handlers

This project models the request handlers of a newsletter backend written in Rust with
axum. Each handler is a Dafny method or function, and its contract states the answer
it gives and what it changes in the store, the outbox or the session. The handlers are:

- public signup, with a confirmation email;
- confirmation of a pending subscriber through the emailed token;
- newsletter publishing:
  - the legacy route, authenticated with HTTP Basic credentials;
  - the admin form route;
- password change;
- logout;
- login;
- the middleware that turns anonymous users away from the admin area.

The collaborators appear as follows:

- **Database.** The `subscriptions`, `subscription_tokens` and `users` tables are fields
  of a `Store.Database` object. The signup transaction is a `Store.Transaction` object
  that stages writes until `Commit`.
- **Email provider.** `Email.EmailClient` appends every message the provider accepts
  to its outbox.
- **Session.** `Sessions.Session` holds the session's entries.
- **Outside code.** Credential validation, the domain parsers and the random draws are
  passed in as functions. Database failures are passed in as boolean faults.
- **Libraries.** Standard base 64 (section 4 of RFC 4648), UTF-8 (RFC 3629),
  percent-encoding and the hyphenated UUID text form are written out. This lets the
  Basic-auth round trip, the confirmation link and the login error redirect be stated
  exactly.

What is proved:

- **Basic authentication.** The parser accepts exactly the headers built from `u:p`
  with a colon-free `u`, and it gives back exactly `u` and `p`.
- **Newsletter fan-out.** The send loop writes only to confirmed subscribers whose
  address parses, in query order. It stops at the first refused send and names that
  recipient in the error. It reports success exactly when every send was accepted.
- **Signup.**
  - Nothing is stored unless every database step succeeds.
  - A stored subscriber is pending and has a fresh 25-character alphanumeric token.
  - The emailed link carries that token unescaped.
  - Following the link puts the address on the confirmed list.
- **Confirmation.** It only ever adds to the confirmed list.
- **Password change.** The password changes only after all three form checks and the
  current-password check pass. The length bounds count UTF-8 bytes.
- **Login error redirect.** It percent-encodes the message, and decoding the query
  value gives the message back.

Where the code and its tests disagree, the model follows the code:

- After a successful login, `login` redirects to `/`. The password-change tests
  (tests/api/change_password.rs:175 and :205) expect `/admin/dashboard`.
- `login` never stores the user id in the session, so the middleware only lets a
  request through when some other code has stored the id. `Sessions.Session.InsertUserId`
  models that storing step.

## Model

| member | source | states |
|---|---|---|
| Errors.ErrorChainFmt | src/error.rs:4-15 | The report is the error's text, a blank line, then one `Caused by:` entry per cause, following `source()` to the end of the chain (`ChainReport`). |
| Errors.ContextReport | src/error.rs:4-15 | Adding context puts the old error first in the cause list and keeps the rest of the chain unchanged. |
| Errors.ReportWithoutSource | src/error.rs:8-14 | An error without a source is reported as its own text and a blank line. |
| Errors.NewResponseError | src/error.rs:25-30 | `ResponseError::new` keeps the given status and error. |
| Errors.SetStatus | src/error.rs:32-35 | `set_status` replaces the status and keeps the error. |
| Errors.FromError | src/error.rs:45-55 | Every error converted into a `ResponseError` answers 500 and keeps the error. |
| Errors.Display | src/error.rs:64-67 | A `ResponseError` displays as the wrapped error's text. |
| Errors.IntoResponse | src/error.rs:38-43 | The response carries the stored status, and its body is the error's text. |
| Errors.ConvertedErrorResponse | src/error.rs:38-55 | An error converted into a `ResponseError` answers 500 with the error's text as body; after `set_status` it answers the new status with the same body. |
| BasicAuth.HeaderToStr | src/routes/newsletters.rs:123-127 | The header reads as text exactly when every byte is visible ASCII or a tab. The text re-encodes to the same bytes. |
| BasicAuth.StripPrefix | src/routes/newsletters.rs:128-130 | Succeeds exactly when the value starts with `Basic `, and the prefix plus the result gives back the value. |
| BasicAuth.SplitOnce | src/routes/newsletters.rs:138-150 | Splits at the first colon only: the first piece has no colon, there are two pieces exactly when a colon occurs, and the pieces rejoin to the input. |
| BasicAuth.BasicAuthentication | src/routes/newsletters.rs:122-156 | A missing header fails with its own error. The "username missing" error can never occur. A parsed user-id never contains a colon. |
| BasicAuth.AuthFailure.Message | src/routes/newsletters.rs:122-150 | The context message each failing step attaches; never empty. |
| BasicAuth.AuthFailure.AsError | src/routes/newsletters.rs:122-150 | The error a failing step returns displays that step's context message. |
| BasicAuth.MessageNamesStep | src/routes/newsletters.rs:122-150 | The seven context messages are pairwise distinct, so the message identifies the failing step. |
| BasicAuth.RoundTrip | src/routes/newsletters.rs:122-156 | For a user-id without a colon, the `Basic` header built from `u:p` parses back to exactly `u` and `p`. |
| BasicAuth.SuccessIff | src/routes/newsletters.rs:122-156 | The parser returns `(u, p)` if and only if the header is the encoding of `u:p` and `u` has no colon. |
| BasicAuth.NoColonNoPassword | src/routes/newsletters.rs:145-150 | Decoded credentials without any colon fail with the missing-password error. |
| Base64.DecodeEncode | src/routes/newsletters.rs:131-133 | Standard base-64 decoding of an encoding gives back the bytes. |
| Base64.EncodeDecode | src/routes/newsletters.rs:131-133 | Any string the strict decoder accepts is the canonical encoding of what it decodes to. |
| Unicode.DecodeEncode | src/routes/newsletters.rs:134-135 | UTF-8 decoding of an encoded string gives back the string. |
| Unicode.EncodeDecode | src/routes/newsletters.rs:134-135 | Any bytes `from_utf8` accepts are the encoding of the decoded text. |
| Fanout.PublishErrorResponse | src/routes/newsletters.rs:51-65 | An unexpected error answers a bare 500. An auth error answers 401 with `www-authenticate: Basic realm="publish"` and an empty body. |
| Fanout.PublishError.AsError | src/routes/newsletters.rs:37-43 | `AuthError` displays "Authentication failed" with its payload as source; `UnexpectedError` is transparent (it is the wrapped error itself). |
| Fanout.AuthErrorReport | src/routes/newsletters.rs:37-49 | The debug report of an auth failure is "Authentication failed", then its cause chain. |
| Fanout.GetConfirmedSubscribers | src/routes/newsletters.rs:158-180 | It fails only when the query fails, with the database error. It returns one entry per confirmed row in table order: the parsed address, or the parser's reason as an error. |
| Fanout.ConfirmedEmails | src/routes/newsletters.rs:162-170 | At most one address per row; which rows are returned is stated by `ConfirmedEmailsFromRows` and `ConfirmedRowsAreReturned`, and their order by `ConfirmedEmailsAppend`. |
| Fanout.OnlyConfirmedSubscribers | src/routes/newsletters.rs:162-178 | Every message the issue is meant for goes to the parsed address of a row whose status is confirmed. |
| Fanout.ConfirmedEmailsAppend | src/routes/newsletters.rs:162-170 | The query keeps table order: the addresses from two stretches of rows are the first stretch's followed by the second's. |
| Fanout.ConfirmedRowsAreReturned | src/routes/newsletters.rs:162-170 | Every confirmed row's address is returned by the query. |
| Fanout.DeliveriesAreParsedSubscribers | src/routes/newsletters.rs:94-116 | Each planned message carries the issue's title and both bodies and goes to a subscriber whose address parsed. |
| Fanout.Deliveries | src/routes/newsletters.rs:94-116 | The messages the issue is meant for: never more than there are subscribers, and none when no address parsed. |
| Fanout.DeliveriesFollowParsed | src/routes/newsletters.rs:94-116 | The plan holds exactly one message per subscriber whose address parsed, in query order, each carrying the issue to that address. |
| Fanout.EveryParsedSubscriberIsPlanned | src/routes/newsletters.rs:94-108 | Every subscriber whose address parsed is in the plan. |
| Fanout.ConfirmedSubscribersArePlanned | src/routes/newsletters.rs:93-108 | Every confirmed row whose stored address parses gets a planned message at the parsed address. |
| Fanout.Publish | src/routes/newsletters.rs:93-119 | The loop step by step: it never sends more messages than are planned, and a failure's source is the send failure. |
| Fanout.SendError | src/routes/newsletters.rs:105-107 | The error of a failed send is "Failed to send newsletter issue to " followed by the recipient's address, with the send failure as source. |
| Fanout.DeliverIssue | src/routes/newsletters.rs:93-119 | The outbox grows by exactly the messages the step-by-step `Publish` sends, and the result is `Publish`'s outcome. |
| Fanout.PublishStopsAtFirstRefusal | src/routes/newsletters.rs:93-119 | The sent messages are a prefix of the planned ones and were all accepted. Success holds if and only if every planned message is accepted, and then all are sent. Otherwise the next planned message is the first refused one, and the error is "Failed to send newsletter issue to" plus its recipient. |
| Newsletters.FromAuthError | src/routes/newsletters.rs:85-90 | Invalid credentials become an auth error (401). Any other validation failure becomes an unexpected error (500). The underlying error is kept in both cases. |
| Newsletters.Authorize | src/routes/newsletters.rs:79-90 | A header that does not parse fails with an auth error carrying the step's message; success means the header parsed and validation returned that user id. |
| Newsletters.AuthorizeCases | src/routes/newsletters.rs:79-90 | A request passes if and only if it carries Basic credentials `u:p` (colon-free `u`) that validation accepts. It gets an unexpected error if and only if the credentials parse and validation fails unexpectedly. |
| Newsletters.PublishNewsletter | src/routes/newsletters.rs:73-120 | Nothing is sent unless the request is authorized and the query succeeds. Otherwise the outbox grows by the fan-out's sent messages, and the answer is 200 exactly when the fan-out succeeded. |
| AdminNewsletters.Published | src/routes/admin/newsletters/post.rs:103-104 | 303 to `/admin/newsletters` with the info flash "The newsletter has been published." |
| AdminNewsletters.PublishNewsletter | src/routes/admin/newsletters/post.rs:65-105 | A failed query sends nothing and answers 500. Otherwise the outbox grows by the fan-out's sent messages, and the answer is the published redirect exactly when every send succeeded. |
| AdminNewsletters.PublishedOnlyWhenAllSent | src/routes/admin/newsletters/post.rs:77-104 | The fan-out succeeds if and only if every planned message was sent. After a success, every confirmed row whose address parses was sent the issue. A failed fan-out answers 500, which follows from the error-conversion contracts. |
| AdminPassword.CheckNewPassword | src/routes/admin/password/post.rs:36-51 | The checks run in order: mismatch, fewer than 12 bytes, 128 or more bytes. The password is acceptable if and only if the fields match and its UTF-8 length is in [12, 128). |
| AdminPassword.BackToForm | src/routes/admin/password/post.rs:40-41 | 303 to `/admin/password` with an error-level flash carrying the message. |
| AdminPassword.RejectionMessage | src/routes/admin/password/post.rs:36-51 | Each rejected verdict has a non-empty flash text, different from the wrong-password and success texts; the acceptable verdict has none. |
| AdminPassword.RejectionMessagesDiffer | src/routes/admin/password/post.rs:36-51 | The three rejected verdicts have pairwise different flash texts. |
| AdminPassword.AsciiLengthIsCharacterCount | src/routes/admin/password/post.rs:44-51 | For ASCII passwords, the bounds are character counts. |
| AdminPassword.BoundsCountBytes | src/routes/admin/password/post.rs:44-51 | Eleven `é` pass the "at least 12 characters" check. Sixty-four `é` are refused as 128 or more. |
| AdminPassword.ChangePassword | src/routes/admin/password/post.rs:25-78 | Each rejection redirects back with its message and leaves the users unchanged. A failed username lookup, an unexpected validation error or a failed update answers 500 and leaves them unchanged. A wrong current password redirects back with "The current password is incorrect." Only when everything passes is the user's password replaced, and nothing else changes. The answer is then the error-level flash "Your password has been changed." |
| Store.Database.GetUsername | src/routes/admin/password/post.rs:53-56 | Succeeds if and only if the query works and the user exists, and returns that user's name. |
| Store.Database.UpdatePassword | src/routes/admin/password/post.rs:72-75 | Replaces only that user's password, unless the update fails. |
| Store.Database.SubscriberIdFromToken | src/routes/subscriptions_confirm.rs:70-86 | Fails only on a query fault. Otherwise it returns the subscriber id exactly when the token is stored. |
| Store.Database.ConfirmSubscriber | src/routes/subscriptions_confirm.rs:49-64 | Sets every row with that id to confirmed and keeps the key and token integrity. A failure changes nothing. |
| Store.MarkConfirmed | src/routes/subscriptions_confirm.rs:53-56 | Rows with the id become confirmed. Every other row and the order are unchanged. |
| Store.Transaction.Begin | src/routes/subscriptions.rs:58-60 | A transaction starts from the committed tables. |
| Store.Transaction.InsertSubscription | src/routes/subscriptions.rs:98-116 | Appends the row unless the insert fails or the id is taken. |
| Store.Transaction.InsertToken | src/routes/subscriptions.rs:164-178 | Stores the token unless the insert fails or the token is taken. |
| Store.Transaction.Commit | src/routes/subscriptions.rs:77-80 | All staged writes become visible at once, or none do. |
| Store.AddSubscriberKeepsIntegrity | src/routes/subscriptions.rs:61-80 | A new row with a fresh id, plus a token naming it, keeps ids unique and every token pointing at a row. |
| SubscriptionsConfirm.Confirm | src/routes/subscriptions_confirm.rs:22-43 | A lookup fault answers 500. An unknown token answers 401. A known token answers 200 and confirms exactly its subscriber, or answers 500 if the update fails. Failures change nothing. |
| SubscriptionsConfirm.MarkConfirmedIdempotent | src/routes/subscriptions_confirm.rs:53-56 | Confirming twice is the same as confirming once. |
| SubscriptionsConfirm.ConfirmingAddsOnly | src/routes/subscriptions_confirm.rs:53-56 | Confirmation removes no address from the confirmed list and adds the confirmed subscriber's address. |
| SubscriptionsConfirm.ConfirmedByToken | src/routes/subscriptions_confirm.rs:34-41 | Confirming with a stored token puts the address of the row it names on the confirmed list. |
| Subscriptions.ParseNewSubscriber | src/routes/subscriptions.rs:31-39 | Succeeds if and only if both fields parse. The address is checked first, so its error wins. |
| Subscriptions.GenerateSubscriptionToken | src/routes/subscriptions.rs:152-158 | Every token is 25 characters from `A-Z a-z 0-9`. |
| Subscriptions.EveryTokenCanBeDrawn | src/routes/subscriptions.rs:152-158 | Every 25-character alphanumeric string is some sequence of draws' token. |
| Subscriptions.TokenIsUrlSafe | src/routes/subscriptions.rs:128-132 | Percent-encoding leaves a token unchanged. |
| Subscriptions.ConfirmationEmailCarriesLink | src/routes/subscriptions.rs:128-149 | The email goes to the new subscriber with the subject "Welcome!", and both bodies contain the confirmation link. |
| Subscriptions.LinkCarriesToken | src/routes/subscriptions.rs:128-132 | The link is the base URL, the confirm path, then the token. The query value decodes back to exactly the token. |
| Subscriptions.ConfirmationLink | src/routes/subscriptions.rs:128-132 | The link is the base URL and the confirm path, followed by exactly the token. |
| Subscriptions.ConfirmationEmail | src/routes/subscriptions.rs:132-149 | The email goes to the new subscriber with subject "Welcome!" and the plain and HTML bodies built around the link. |
| Subscriptions.SendConfirmationEmail | src/routes/subscriptions.rs:122-150 | Succeeds exactly when the provider accepts the confirmation email, and only an accepted email enters the outbox. |
| Subscriptions.SubscribeErrorResponse | src/routes/subscriptions.rs:194-204 | A validation error answers 400 and an unexpected one 500, each with the error's text as the body. |
| Subscriptions.SubscribeError.Display | src/routes/subscriptions.rs:180-186 | Both cases print their payload: the validation reason, or the wrapped error's text. |
| Subscriptions.StoreTokenError | src/routes/subscriptions.rs:206-227 | Displays "A database error occurred while trying to store a subscription token." and has the database error as its source. |
| Subscriptions.StoreTokenFailureReport | src/routes/subscriptions.rs:69-75 | The report of a failed token insert is the context, then two `Caused by` entries: the token error and the database error. |
| Subscriptions.Subscribe | src/routes/subscriptions.rs:51-92 | An invalid form answers 400 and changes nothing. A failing storage step answers 500 with that step's context and changes nothing. Otherwise the pending row and its token are committed, and then the confirmation email is sent; a refused email answers 500 but the subscriber stays stored. |
| Subscriptions.StoreSubscriberSucceedsIff | src/routes/subscriptions.rs:58-80 | Storing succeeds if and only if no step fails and both the new id and the token are unused. Every failure carries its cause. |
| Subscriptions.StoreSubscriber | src/routes/subscriptions.rs:58-80 | A failed `begin` fails first with its context; every failure's text is the context of one of the four storage steps. |
| Subscriptions.SubscribeThenConfirm | src/routes/subscriptions.rs:61-80 | After storing, the new token names the new row, and confirming with it makes the address a confirmed one. |
| Email.EmailClient.SendEmail | src/routes/subscriptions.rs:142-149 | Succeeds exactly when the provider accepts the message, which is then appended to the outbox. A refusal leaves the outbox unchanged. |
| Middleware.UserId.Deref | src/authentication/middleware.rs:23-29 | Dereferencing yields the wrapped id, and wrapping it again gives back the same `UserId`. |
| Middleware.UserId.ToString | src/authentication/middleware.rs:17-21 | Displays as the 36-character hyphenated UUID, from which the id can be read back. |
| Middleware.Gate | src/authentication/middleware.rs:31-46 | The request is forwarded if and only if the session has a user id. Otherwise the answer is 303 to `/login` with the error flash "The user is not logged in." |
| Middleware.RejectAnonymousUsers | src/authentication/middleware.rs:31-46 | The outcome is `Gate` of the session's user id. A forwarded request carries exactly that id as `UserId`. |
| Middleware.GateFollowsSession | src/session_state.rs:23-33 | After the user id is stored, the request is forwarded with that id. A cleared session is rejected. |
| Sessions.UserIdIn | src/session_state.rs:27-29 | The session's user id is present exactly when the `user_id` entry is. |
| Sessions.Session.InsertUserId | src/session_state.rs:23-25 | Afterwards the session's user id is the one stored. |
| Sessions.Session.Logout | src/session_state.rs:31-33 | Clearing empties the session, so no user id remains. |
| Logout.Logout | src/routes/admin/logout.rs:5-18 | Every path ends with 303 to `/login`. An anonymous session is left as it was and gets no flash. A logged-in session is cleared and gets the info flash "You have been successfully logged out." Afterwards the middleware rejects the session. |
| Login.FromAuthError | src/routes/login/post.rs:81-84 | Invalid credentials print "Authentication failed"; anything else prints "Something went wrong". |
| Login.LoginError.Message | src/routes/login/post.rs:26-32 | "Authentication failed" for `AuthError`, "Something went wrong" for `UnexpectedError`. |
| Login.LoginError.AsError | src/routes/login/post.rs:26-32 | Displays the case's message and has exactly the wrapped error as source. |
| Login.Login | src/routes/login/post.rs:58-98 | Accepted credentials give `Ok`: 303 to `/` with no cookie. Otherwise `Err`: 303 to `/login` with the one cookie `_flash`, which holds the error's text and has a max-age of 1 second. |
| Login.LoginErrorResponse | src/routes/login/post.rs:40-52 | 303 with an empty body, to `/login?error=` followed by the percent-encoded text. |
| Login.ErrorQueryRoundTrip | src/routes/login/post.rs:40-52 | The query value decodes back to exactly the error's text. |
| UrlEncoding.DecodeEncode | src/routes/login/post.rs:42 | Percent-decoding an encoding gives back the bytes. |
| Uuids.ParseDisplayOfDisplay | src/authentication/middleware.rs:17-21 | Reading back the hyphenated form of a UUID gives the UUID. |

## Left out

- The idempotency guard and the delivery queue. No handler in the modelled code implements them.
- Store.Database.GetUsername: the lookup behind `get_username` is not part of this model. It is assumed to read one row per user id and to fail when that row is missing, which is what `Store.Database.UpdatePassword` relies on.
- Request extraction is not modelled. Each handler receives input that axum has already extracted, so requests that the extractors reject before the handler runs are absent: a form with a missing field answers 422, and a confirmation request without `subscription_token` answers 400.
- Login.FromAuthError and Newsletters.FromAuthError wrap the cause carried by the `AuthError`, while the code wraps the whole `AuthError` (`e.into()`). The debug cause chain therefore lacks the `AuthError`'s own line. Responses do not depend on it. `AuthError`'s display text is not part of this model.
- Network I/O:
  - The email provider is a fixed accept-or-refuse verdict per message.
  - Transient failures of the same message, timeouts and retries are not modelled.
- SQL is replaced by sequences and maps:
  - Isolation between concurrent requests is not modelled.
  - The `subscribed_at` timestamp is not modelled.
  - Row order is the order a query returns rows.
- Query failures are boolean parameters. The text of `sqlx` and `reqwest` errors is a placeholder.
- `validate_credentials`, password hashing and `change_password`'s hash are not part of this model:
  - Validation is a function of the credentials.
  - The stored credential is the new password itself.
- `SubscriberEmail::parse` and `SubscriberName::parse` are not part of this model. They are passed-in functions.
- `thread_rng` and `Uuid::new_v4` are explicit draws passed as parameters. Their distribution is not modelled.
- BasicAuth.BasicAuthentication: the error keeps the step's context message, but not the library error beneath it (from `to_str`, the base-64 decoder or `from_utf8`).
- Tracing spans, log lines and the `tracing::warn!` for skipped subscribers are left out. They have no effect on responses or state.
- `next.run(request)` in the middleware is reported as a forwarded outcome, because the downstream handler's response is not modelled.
- Flash messages are the value a response carries. Their cookie signing and storage are left out.
- HTML pages, routing and server start-up are left out.
- The `fmt::Write` failure of the `Debug` implementations is not modelled; `Errors.ErrorChainFmt` always completes.
- The copy of `error_chain_fmt` in src/routes/subscriptions.rs:229-240 is identical to the one in src/error.rs. Both are modelled by `Errors.ErrorChainFmt`.
- The admin newsletter route's `PublishError` and `get_confirmed_subscribers` are identical copies of the legacy route's. Both routes share `Fanout`.
