/**
 * The email client, seen from the handlers: `send_email` hands one message to the
 * delivery provider, which accepts it or answers with an error. The provider's verdict
 * is a fixed function of the message; the messages it accepted are the client's outbox.
 */
module Email {
  import opened Wrappers
  import opened Errors

  datatype EmailMessage = EmailMessage(recipient: string, subject: string, htmlBody: string, textBody: string)

  /** The `reqwest::Error` a refused or failed send returns; its text is not modelled. */
  const SendFailure: Error := Error("error sending request", None)

  class EmailClient {
    var outbox: seq<EmailMessage>
    const accepts: EmailMessage -> bool

    constructor (accepts: EmailMessage -> bool)
      ensures outbox == [] && this.accepts == accepts
    {
      outbox := [];
      this.accepts := accepts;
    }

    /** `send_email(recipient, subject, html_content, text_content)`. */
    method SendEmail(recipient: string, subject: string, htmlBody: string, textBody: string)
      returns (r: Result<(), Error>)
      modifies this`outbox
      ensures var m := EmailMessage(recipient, subject, htmlBody, textBody);
        (r.Success? <==> accepts(m)) &&
        (r.Failure? ==> r.error == SendFailure) &&
        outbox == old(outbox) + (if accepts(m) then [m] else [])
    {
      var m := EmailMessage(recipient, subject, htmlBody, textBody);
      if accepts(m) {
        outbox := outbox + [m];
        r := Success(());
      } else {
        r := Failure(SendFailure);
      }
    }
  }
}
