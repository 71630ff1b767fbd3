/** The value types shared by the message service and the controller: the two
    entities of the backend, Java's nullable references, and the one kind of
    service failure. */
module Model {

  /** A Java reference that may be `null`, or an `Optional` that may be empty. */
  datatype Option<+T> = None | Some(value: T)

  /** The outcome of a service call that either returns or throws `ServiceException`. */
  datatype Result<+T> = Ok(value: T) | ServiceError

  /** The longest message text the service accepts, in characters. */
  const MaxTextLength := 255

  /** A row of the `message` table, or a message decoded from a request body.
      The text is `None` when the body had no `message_text`. */
  datatype Message = Message(id: int, postedBy: int, text: Option<string>, timePostedEpoch: int)

  /** A row of the `account` table, or credentials decoded from a request body. */
  datatype Account = Account(id: int, username: Option<string>, password: Option<string>)

  /** The validation both `createMessage` and `updateMessage` run before touching
      storage: the text is present, not empty, and at most 255 characters long.
      Whitespace-only text passes. */
  predicate ValidText(text: Option<string>)
  {
    text.Some? && |text.value| != 0 && |text.value| <= MaxTextLength
  }
}
