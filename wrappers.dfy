/** Shared result types of the tracker's request handlers. */
module Wrappers {

  datatype Option<+T> = None | Some(value: T)

  /** The messages of the handlers' early answers. */
  datatype Message =
    | RequiredFields | ApplicationNotFound | IdsRequired
    | UserNotFound | InvalidEmail | EmptyEmail | EmailTaken | UsernameTaken
    | Unauthorized | InvalidToken | AccountInactive | TokenRejected

  /** The text sent in the `message` field of the JSON answer. */
  function MessageText(m: Message): string {
    match m
    case RequiredFields => "jobTitle (or title), companyName (or company), and applicationDate (or dateApplied) are required"
    case ApplicationNotFound => "Application not found"
    case IdsRequired => "ids array is required"
    case UserNotFound => "User not found"
    case InvalidEmail => "Validation error: email must be a valid email address"
    case EmptyEmail => "Email cannot be empty"
    case EmailTaken => "Email already exists"
    case UsernameTaken => "Username already exists"
    case Unauthorized => "Unauthorized"
    case InvalidToken => "Invalid token"
    case AccountInactive => "Account inactive"
    case TokenRejected => "Invalid/expired token"
  }

  /** The ways a handler can end without its success body. */
  datatype Failure =
      /** An early `res.status(code).json({ message })` return. */
    | Fail(code: nat, message: Message)
      /** The document store refused to save a record that breaks its schema
          (required field, enum or maximum length); the error is passed on to the
          application's error handler, which is not part of this model. */
    | SchemaRejected
      /** The store could not cast a value of an update to its path's type (an
          Invalid Date for `dateApplied`); the thrown error goes to the same
          error handler. */
    | CastRejected
      /** A query whose outcome depends on how the database driver treats a
          non-numeric or non-positive paging parameter; not modelled. */
    | OutsideModel

  datatype Response<+T> = Ok(body: T) | Error(failure: Failure)

  /** JavaScript truthiness of an optional string: present and non-empty. */
  predicate Truthy(x: Option<string>) {
    x.Some? && x.value != ""
  }

  /** JavaScript `a || b` on optional strings. */
  function Or(a: Option<string>, b: Option<string>): (r: Option<string>)
    ensures Truthy(a) ==> r == a
    ensures !Truthy(a) ==> r == b
  {
    if Truthy(a) then a else b
  }

  /** JavaScript `x || null`: a falsy value becomes null. */
  function OrNull(x: Option<string>): (r: Option<string>)
    ensures Truthy(x) <==> r.Some?
    ensures r.Some? ==> r == x
  {
    if Truthy(x) then x else None
  }

  /** JavaScript `x || fallback` where the fallback is a plain string. */
  function OrElse(x: Option<string>, fallback: string): (r: string)
    ensures Truthy(x) ==> r == x.value
    ensures !Truthy(x) ==> r == fallback
  {
    if Truthy(x) then x.value else fallback
  }
}
