/** The JSON-file collections of src/server.js and the outcomes of the
    handlers that read and write them. */
module Storage {

  /** What `readJson(file, null)` can produce for a collection file: nothing
      (absent file or unparsable text, both read as the `null` fallback),
      a JSON value that is not an array, or an array of records. */
  datatype Stored<T> = Missing | NotArray | Array(items: seq<T>)

  /** The warnings and errors a handler redirects with, before or instead
      of changing a collection. */
  datatype Refusal =
    | BaseNameRequired
    | FormNameRequired
    | InvalidGuildId
    | InvalidRoleId
    | FormNotFound
    | InvalidUserId
    | InvalidForm
    | IncompleteAnswers
    | ApplicationNotFound
    | AlreadyReviewed
    | GrantFailed(reason: string)

  datatype Result<T> = Ok(value: T) | Err(refusal: Refusal)
}
