/** The failures the account service reports to its caller. */
module UserErrors {
  import opened UserPolicy

  datatype Error =
    | ValidationFailed(fields: seq<FieldError>)  // request body rejected by its model
    | UsernameTaken
    | EmailTaken
    | InvalidToken                               // verification token held by no account
    | InvalidCredentials                         // unknown email or wrong password
    | EmailNotVerified

  /** The `detail` text of each raised `HTTPException`. */
  function Detail(e: Error): string
    requires !e.ValidationFailed?
  {
    match e
    case UsernameTaken => "Username already taken"
    case EmailTaken => "Email already registered"
    case InvalidToken => "Invalid or expired token"
    case InvalidCredentials => "Invalid email or password"
    case EmailNotVerified => "Email not verified"
  }

  /** Every failure kind has a detail text of its own, so the text tells a
      caller which check failed. That is why the login handler reports an
      unknown email and a wrong password as the one kind InvalidCredentials. */
  lemma DetailsDistinct(e1: Error, e2: Error)
    requires !e1.ValidationFailed? && !e2.ValidationFailed?
    ensures Detail(e1) == Detail(e2) <==> e1 == e2
  {
  }
}
