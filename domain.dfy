/**
 * The validated domain types (`SubscriberEmail`, `SubscriberName`, `NewSubscriber`).
 * Their parsing rules live in the domain module, which is not part of this model; the
 * handlers receive the two parsers as functions.
 */
module Domain {
  import opened Wrappers

  /** An address that passed `SubscriberEmail::parse`; `Display` prints the address. */
  datatype SubscriberEmail = SubscriberEmail(address: string)

  datatype SubscriberName = SubscriberName(value: string)

  datatype NewSubscriber = NewSubscriber(email: SubscriberEmail, name: SubscriberName)

  /** `SubscriberEmail::parse` and `SubscriberName::parse`: a value, or the reason as text. */
  datatype Parsers = Parsers(
    email: string -> Result<SubscriberEmail, string>,
    name: string -> Result<SubscriberName, string>)
}
