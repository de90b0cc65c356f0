/** The request handlers of app/modules/user/routes.py, without the HTTP
    layer: registration, email verification and login. */
module UserRoutes {
  import opened Wrappers
  import opened Credentials
  import opened UserPolicy
  import opened UserErrors
  import opened UserService

  /** What the register handler returns: the public fields only, never the
      password hash nor the verification token. */
  datatype PublicAccount = PublicAccount(id: nat, username: string, email: string, isVerified: bool)

  function Public(a: Account): PublicAccount {
    PublicAccount(a.id, a.username, a.email, a.isVerified)
  }

  datatype LoginResponse = LoginResponse(accessToken: AccessToken, tokenType: string)

  /** The row after a successful verification. */
  function MarkVerified(a: Account): Account {
    a.(isVerified := true, verificationToken := None)
  }

  /** `register`: the request body is validated first (all fields, every
      failure reported); then the store creates the account and the handler
      returns its public fields. Sending the verification email is not
      modelled. */
  method Register(db: Database, username: string, email: string, password: string,
                  isEmail: string -> bool, hasher: Hasher, salt: nat, token: string)
    returns (r: Result<PublicAccount, Error>)
    modifies db
    ensures ValidationErrors(username, email, password, isEmail) != [] ==>
      r == Failure(ValidationFailed(ValidationErrors(username, email, password, isEmail)))
    ensures ValidationErrors(username, email, password, isEmail) == [] ==>
      && (r == Failure(UsernameTaken) <==> HasUsername(old(db.users), username))
      && (r == Failure(EmailTaken) <==> !HasUsername(old(db.users), username) && HasEmail(old(db.users), email))
    ensures r.Success? <==>
      && ValidUsername(username) && isEmail(email) && StrongPassword(password)
      && !HasUsername(old(db.users), username) && !HasEmail(old(db.users), email)
    ensures r.Failure? ==> db.users == old(db.users)
    ensures r.Success? ==>
      && r.value == PublicAccount(|old(db.users)| + 1, username, email, false)
      && db.users == old(db.users) + [Account(|old(db.users)| + 1, username, email, hasher.hash(password, salt), false, Some(token))]
    ensures Valid(old(db.users)) && !HoldsToken(old(db.users), token) ==> Valid(db.users)
  {
    var errs := ValidationErrors(username, email, password, isEmail);
    if errs != [] {
      return Failure(ValidationFailed(errs));
    }
    var created := CreateUser(db, username, email, password, hasher, salt, token);
    match created
    case Failure(e) => r := Failure(e);
    case Success(user) => r := Success(Public(user));
  }

  /** `verify_email`: the first row holding the token is marked verified and
      its token cleared; no other row changes. A token no row holds fails. */
  method VerifyEmail(db: Database, token: string) returns (r: Result<string, Error>)
    modifies db
    ensures r.Failure? <==> !HoldsToken(old(db.users), token)
    ensures r.Failure? ==> r.error == InvalidToken && db.users == old(db.users)
    ensures r.Failure? ==> Detail(r.error) == "Invalid or expired token"
    ensures r.Success? ==>
      && r.value == "Email verified successfully"
      && exists i :: FirstWithToken(old(db.users), token, i) && db.users == old(db.users)[i := MarkVerified(old(db.users)[i])]
    ensures Valid(old(db.users)) ==> Valid(db.users)
    ensures Valid(old(db.users)) ==> !HoldsToken(db.users, token)
  {
    match FirstIndex(db.users, (a: Account) => a.verificationToken == Some(token))
    case None =>
      r := Failure(InvalidToken);
    case Some(i) =>
      ghost var before := db.users;
      db.users := db.users[i := MarkVerified(db.users[i])];
      r := Success("Email verified successfully");
      assert FirstWithToken(before, token, i);
  }

  /** `login`: only reads the table, so it cannot change it. The email must
      have email syntax; an unknown email and a wrong password fail alike;
      "not verified" is reported only once the password has matched. */
  function Login(users: seq<Account>, email: string, password: string,
                 isEmail: string -> bool, hasher: Hasher): (r: Result<LoginResponse, Error>)
    ensures !isEmail(email) ==> r == Failure(ValidationFailed([BadEmail]))
    ensures r == Failure(InvalidCredentials) <==>
      && isEmail(email)
      && (!HasEmail(users, email) ||
          exists i :: FirstWithEmail(users, email, i) && !hasher.verify(password, users[i].hashedPassword))
    ensures r == Failure(EmailNotVerified) <==>
      && isEmail(email)
      && exists i :: FirstWithEmail(users, email, i) && hasher.verify(password, users[i].hashedPassword) && !users[i].isVerified
    ensures r.Success? <==>
      && isEmail(email)
      && exists i :: FirstWithEmail(users, email, i) && hasher.verify(password, users[i].hashedPassword) && users[i].isVerified
    ensures r.Success? ==> r.value == LoginResponse(AccessToken(email), "bearer")
  {
    if !isEmail(email) then Failure(ValidationFailed([BadEmail]))
    else
      match GetUserByEmail(users, email)
      case None => Failure(InvalidCredentials)
      case Some(user) =>
        if !hasher.verify(password, user.hashedPassword) then Failure(InvalidCredentials)
        else if !user.isVerified then Failure(EmailNotVerified)
        else Success(LoginResponse(AccessToken(user.email), "bearer"))
  }

  /** An unknown email and a known email with a wrong password produce the
      very same failure, so a caller cannot tell which check failed. */
  lemma LoginFailuresIndistinguishable(users: seq<Account>, unknown: string, p1: string,
                                       known: string, p2: string, isEmail: string -> bool, hasher: Hasher)
    requires isEmail(unknown) && isEmail(known)
    requires !HasEmail(users, unknown)
    requires HasEmail(users, known) && !hasher.verify(p2, GetUserByEmail(users, known).value.hashedPassword)
    ensures Login(users, unknown, p1, isEmail, hasher) == Login(users, known, p2, isEmail, hasher) == Failure(InvalidCredentials)
    ensures Detail(Login(users, known, p2, isEmail, hasher).error) == "Invalid email or password"
  {
  }

  /** The detail of a login failure for a well-formed email: "Email not
      verified" once the first account with that email accepts the password,
      and "Invalid email or password" in every other case. */
  lemma LoginFailureDetail(users: seq<Account>, email: string, password: string,
                           isEmail: string -> bool, hasher: Hasher)
    requires isEmail(email) && Login(users, email, password, isEmail, hasher).Failure?
    ensures !Login(users, email, password, isEmail, hasher).error.ValidationFailed?
    ensures Detail(Login(users, email, password, isEmail, hasher).error) ==
      if GetUserByEmail(users, email).Some? && hasher.verify(password, GetUserByEmail(users, email).value.hashedPassword)
      then "Email not verified" else "Invalid email or password"
  {
  }

  /** A freshly registered account cannot log in yet, even with its own
      password. */
  lemma LoginBeforeVerification(users: seq<Account>, username: string, email: string, password: string,
                                isEmail: string -> bool, hasher: Hasher, salt: nat, token: string)
    requires isEmail(email) && !HasEmail(users, email)
    requires hasher.verify(password, hasher.hash(password, salt))
    ensures Login(users + [Account(|users| + 1, username, email, hasher.hash(password, salt), false, Some(token))],
                  email, password, isEmail, hasher) == Failure(EmailNotVerified)
  {
    var after := users + [Account(|users| + 1, username, email, hasher.hash(password, salt), false, Some(token))];
    assert FirstWithEmail(after, email, |users|);
  }

  /** Once its row has been verified, an account logs in with its password
      and receives a bearer token for its email. */
  lemma LoginAfterVerification(users: seq<Account>, i: int, password: string,
                               isEmail: string -> bool, hasher: Hasher)
    requires Valid(users) && 0 <= i < |users|
    requires isEmail(users[i].email) && hasher.verify(password, users[i].hashedPassword)
    ensures Login(users[i := MarkVerified(users[i])], users[i].email, password, isEmail, hasher)
            == Success(LoginResponse(AccessToken(users[i].email), "bearer"))
  {
    var after := users[i := MarkVerified(users[i])];
    assert Valid(after);
    EmailLookupFindsOwner(after, i);
  }
}
