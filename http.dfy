/**
 * What an Express handler sends back: a status code and a JSON body with a
 * `message` field and, on success, a payload (a user, a note, a token, a list).
 */
module Http {
  import opened Wrappers

  const Ok := 200
  const Created := 201
  const BadRequest := 400
  const NotFound := 404
  const InternalError := 500

  /**
   * A request field is "truthy" in JavaScript's sense when it is present and,
   * being a string, not empty. Handlers test their inputs with `!field`.
   */
  predicate Truthy(field: Option<string>)
  {
    field.Some? && field.value != ""
  }

  /**
   * The exceptions that reach a handler's `catch` block, whose `message` is sent
   * back verbatim with status 500.
   */
  datatype Exception =
    | NullProperty(property: string)   // a TypeError: reading `property` of a null document
    | FilesUndefined                   // a TypeError: destructuring `audio` out of an absent `req.files`
    | ValidationFailed(paths: seq<string>)  // a Mongoose ValidationError naming the failing schema paths
    | UploadFailed(reason: string)     // the object-storage upload rejected

  /** The `message` field: either text chosen by the handler or a caught exception's own message. */
  datatype Message = Said(text: string) | Raised(error: Exception)

  datatype Reply<+T> = Reply(status: int, message: Message, body: Option<T>)
}
