/**
 * What the server route handlers share: the request method, the user that the
 * auth library's `getSession` resolves a request to, the JSON shapes a handler
 * inspects, and the status (with its error reason) a handler answers with.
 */
module Api {
  import opened Wrappers

  datatype Method = Get | Post | Put | Delete | OtherMethod(name: string)

  /** The session's user as the auth library reports it (`session.user`). */
  datatype SessionUser = SessionUser(id: string, email: string, emailVerified: bool)

  /** A field of a JSON body, where the handler looks at its type. */
  datatype JsonField = Absent | JsonNull | JsonString(text: string) | JsonOther

  /** The outcome of `await request.json()`: the body, or the message of the error it throws. */
  datatype Parsed<T> = Parsed(body: T) | Unparsable(message: string)

  /** The first validation issue the post schema reports. */
  datatype PostIssue =
    | TitleNotString      // title missing or not a string
    | TitleRequired       // "Title is required": empty title
    | TitleTooLong        // more than 100 characters
    | ContentNotString    // content missing or not a string
    | ContentRequired     // "Content is required": empty content

  /** Why a request was refused with 400. */
  datatype Reason =
    | MissingPassword     // set-password: a field is missing
    | PasswordMismatch    // set-password: the two fields differ
    | PasswordLength      // length outside 8..20
    | NoUppercase
    | NoLowercase
    | NoDigit
    | AlreadyHasPassword  // set-password: a credential row exists
    | MissingFields       // change-password: a field is missing
    | OAuthOnly           // change-password: no credential row
    | IncorrectPassword   // change-password: the library refused the current password
    | SetPasswordFirst    // unlink-google: the guard refused
    | InvalidName         // profile: a name that is not a non-blank string
    | AlreadyVerified     // resend-verification
    | MissingEmail        // exists: no email parameter
    | FileRequired        // avatar-upload: no file in the form
    | FileTooLarge
    | UnsupportedType
    | PostIdRequired      // blog: PUT or DELETE without an id
    | InvalidPost(issue: PostIssue)

  datatype Status =
    | Ok
    | Created
    | BadRequest(reason: Reason)
    | Unauthorized
    | Forbidden
    | NotFound
    | MethodNotAllowed
    | ServerError

  /** The HTTP status code of the response. */
  function Code(s: Status): (code: nat)
    ensures (200 <= code < 300) <==> (s.Ok? || s.Created?)
  {
    match s
    case Ok => 200
    case Created => 201
    case BadRequest(_) => 400
    case Unauthorized => 401
    case Forbidden => 403
    case NotFound => 404
    case MethodNotAllowed => 405
    case ServerError => 500
  }
}
