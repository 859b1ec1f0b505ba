/** The errors the command-line tool raises. Each becomes a terminated
    command with the message given by `Message`. */
module Errors {

  datatype Error =
    | NoActiveEnvironment            // ValueError from get_api_key
    | UnsupportedFileType            // ValueError from get_file_content
    | UnsupportedResponseFormat      // ValueError from _check_response_format
    | MissingApiKey(env: string)     // KeyError on value["api_key"] of the active entry

  /** The text the user sees for each error. */
  function Message(e: Error): string
  {
    match e
    case NoActiveEnvironment =>
      "No active environment found. Activate one using `whisper activate-env`."
    case UnsupportedFileType => "File type not supported."
    case UnsupportedResponseFormat => "Response format not supported by OpenAI."
    case MissingApiKey(_) => "'api_key'"
  }

  /** The same kind of error, whatever environment a missing key belongs to. */
  predicate SameKind(e1: Error, e2: Error) {
    match (e1, e2)
    case (NoActiveEnvironment, NoActiveEnvironment) => true
    case (UnsupportedFileType, UnsupportedFileType) => true
    case (UnsupportedResponseFormat, UnsupportedResponseFormat) => true
    case (MissingApiKey(_), MissingApiKey(_)) => true
    case _ => false
  }

  /** The user can tell the kinds of error apart: two errors show the same
      message exactly when they are of the same kind. */
  lemma MessagesDistinguishKinds(e1: Error, e2: Error)
    ensures Message(e1) == Message(e2) <==> SameKind(e1, e2)
  {
  }
}
