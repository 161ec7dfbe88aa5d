/** The error objects the handlers throw and the Express error handler that turns
    any of them into the JSON reply `{ success: false, error }`. */
module Errors {
  import opened Wrappers

  /** A thrown `Error`: the handlers set `statusCode`, errors raised by libraries
      (the image host, the database, the token signer) leave it unset. */
  datatype AppError = AppError(statusCode: Option<int>, message: string)

  /** `const e = new Error(message); e.statusCode = status; throw e`. */
  function Raise(status: int, message: string): AppError
  {
    AppError(Some(status), message)
  }

  /** An error thrown by a library with only a message. */
  function Unexpected(message: string): AppError
  {
    AppError(None, message)
  }

  const DefaultMessage := "Internal Server Error"

  /** The reply written by the error handler: HTTP status and JSON body. */
  datatype ErrorReply = ErrorReply(status: int, success: bool, error: string)

  /** `err.statusCode || 500` and `err.message || 'Internal Server Error'`. The promise stated
      is the defaulting rule: a missing or zero status becomes 500, an empty message becomes
      the default text, and anything else reaches the client unchanged, always with
      `success: false`. */
  function HandleError(err: AppError): (r: ErrorReply)
    ensures !r.success
    ensures err.statusCode.Some? && err.statusCode.value != 0 ==> r.status == err.statusCode.value
    ensures err.statusCode.None? || err.statusCode.value == 0 ==> r.status == 500
    ensures err.message != "" ==> r.error == err.message
    ensures err.message == "" ==> r.error == DefaultMessage
  {
    var status := if err.statusCode.Some? && err.statusCode.value != 0 then err.statusCode.value else 500;
    var message := if err.message != "" then err.message else DefaultMessage;
    ErrorReply(status, false, message)
  }

  /** An error a handler raises with a status and a message reaches the client unchanged. */
  lemma RaisedReachesClient(status: int, message: string)
    requires status != 0 && message != ""
    ensures HandleError(Raise(status, message)) == ErrorReply(status, false, message)
  {
  }

  /** A library error carries no status and is reported as 500 with its own message. */
  lemma UnexpectedIs500(message: string)
    ensures HandleError(Unexpected(message)).status == 500
    ensures message != "" ==> HandleError(Unexpected(message)).error == message
  {
  }
}
