/** Client runs of the handlers, replaying the registration, verification
    and login sequences the service is meant to support: the life of one
    account on a fresh database, and the test suite's requests against a
    table in any state. Each run is proved from the handlers' contracts
    alone. */
module UserScenarios {
  import opened Wrappers
  import opened Credentials
  import opened UserPolicy
  import opened UserErrors
  import opened UserService
  import opened UserRoutes

  /** A sample request ("alice", "a@x.com", "Testpass1") passes validation,
      so the lifecycle below applies to it. */
  lemma SampleRequestValid(isEmail: string -> bool)
    requires isEmail("a@x.com")
    ensures ValidationErrors("alice", "a@x.com", "Testpass1", isEmail) == []
  {
    PasswordExamples();
    UsernameExamples();
  }

  /** The whole life of one account on a fresh database, for any request
      that passes validation: register, log in too early, verify, log in,
      log in with a wrong password, and present the consumed token again. */
  method AccountLifecycle(username: string, email: string, password: string, wrongPassword: string,
                          isEmail: string -> bool, hasher: Hasher, salt: nat, token: string)
    returns (registered: Result<PublicAccount, Error>, early: Result<LoginResponse, Error>,
             verified: Result<string, Error>, loggedIn: Result<LoginResponse, Error>,
             wrong: Result<LoginResponse, Error>, again: Result<string, Error>)
    requires ValidationErrors(username, email, password, isEmail) == []
    requires hasher.verify(password, hasher.hash(password, salt))
    requires !hasher.verify(wrongPassword, hasher.hash(password, salt))
    ensures registered == Success(PublicAccount(1, username, email, false))
    ensures early == Failure(EmailNotVerified)
    ensures verified == Success("Email verified successfully")
    ensures loggedIn == Success(LoginResponse(AccessToken(email), "bearer"))
    ensures wrong == Failure(InvalidCredentials)
    ensures again == Failure(InvalidToken)
  {
    var db := new Database();
    registered := Register(db, username, email, password, isEmail, hasher, salt, token);
    var user := Account(1, username, email, hasher.hash(password, salt), false, Some(token));
    assert db.users == [user];
    early := Login(db.users, email, password, isEmail, hasher);
    assert FirstWithEmail(db.users, email, 0);
    assert early == Failure(EmailNotVerified);
    assert HoldsToken(db.users, token) by {
      assert db.users[0].verificationToken == Some(token);
    }
    verified := VerifyEmail(db, token);
    assert db.users == [MarkVerified(user)];
    loggedIn := Login(db.users, email, password, isEmail, hasher);
    assert FirstWithEmail(db.users, email, 0);
    assert loggedIn.Success?;
    wrong := Login(db.users, email, wrongPassword, isEmail, hasher);
    assert !HoldsToken(db.users, token);
    again := VerifyEmail(db, token);
  }

  /** The test suite's three well-formed registration requests pass validation. */
  lemma TestRequestValid(username: string, email: string, isEmail: string -> bool)
    requires username == "testuser" || username == "newuser"
    requires isEmail(email)
    ensures ValidationErrors(username, email, "testpassword123", isEmail) == []
  {
    PasswordExamples();
    UsernameExamples();
  }

  /** The request of the invalid-email test fails on its email alone. */
  lemma BadEmailRequest(isEmail: string -> bool)
    requires !isEmail("invalidemail")
    ensures ValidationErrors("anotheruser", "invalidemail", "testpassword123", isEmail) == [BadEmail]
  {
    PasswordExamples();
    UsernameExamples();
  }

  /** The requests of the weak-password test fail on their password alone,
      each for the first check its password fails. */
  lemma WeakPasswordRequests(isEmail: string -> bool)
    requires isEmail("weakpassworduser@example.com")
    requires isEmail("weakpassworduser2@example.com")
    requires isEmail("weakpassworduser3@example.com")
    ensures ValidationErrors("weakpassworduser", "weakpassworduser@example.com", "12345678", isEmail)
            == [BadPassword(NoLetter)]
    ensures ValidationErrors("weakpassworduser2", "weakpassworduser2@example.com", "abcdefgh", isEmail)
            == [BadPassword(NoDigit)]
    ensures ValidationErrors("weakpassworduser3", "weakpassworduser3@example.com", "abc123", isEmail)
            == [BadPassword(TooShort)]
  {
    PasswordExamples();
    UsernameExamples();
  }

  /** The duplicate registrations of the test suite, against any table that
      already holds "testuser" with "testuser@example.com" and no "newuser":
      the taken username is reported first, then the taken email, and the
      table is left as it was. */
  method DuplicateRegistrations(db: Database, isEmail: string -> bool, hasher: Hasher, salt: nat, token: string)
    returns (sameName: Result<PublicAccount, Error>, sameEmail: Result<PublicAccount, Error>)
    requires isEmail("testuser@example.com") && isEmail("anotheremail@example.com")
    requires HasUsername(db.users, "testuser") && HasEmail(db.users, "testuser@example.com")
    requires !HasUsername(db.users, "newuser")
    modifies db
    ensures sameName == Failure(UsernameTaken) && Detail(sameName.error) == "Username already taken"
    ensures sameEmail == Failure(EmailTaken) && Detail(sameEmail.error) == "Email already registered"
    ensures db.users == old(db.users)
  {
    TestRequestValid("testuser", "anotheremail@example.com", isEmail);
    sameName := Register(db, "testuser", "anotheremail@example.com", "testpassword123", isEmail, hasher, salt, token);
    TestRequestValid("newuser", "testuser@example.com", isEmail);
    sameEmail := Register(db, "newuser", "testuser@example.com", "testpassword123", isEmail, hasher, salt, token);
  }

  /** The rejected requests of the test suite: a malformed email and three
      weak passwords are refused by validation and leave the table as it was. */
  method RejectedRequests(db: Database, isEmail: string -> bool, hasher: Hasher, salt: nat, token: string)
    returns (badEmail: Result<PublicAccount, Error>, weak: seq<Result<PublicAccount, Error>>)
    requires !isEmail("invalidemail")
    requires isEmail("weakpassworduser@example.com")
    requires isEmail("weakpassworduser2@example.com")
    requires isEmail("weakpassworduser3@example.com")
    modifies db
    ensures badEmail == Failure(ValidationFailed([BadEmail]))
    ensures weak == [Failure(ValidationFailed([BadPassword(NoLetter)])),
                     Failure(ValidationFailed([BadPassword(NoDigit)])),
                     Failure(ValidationFailed([BadPassword(TooShort)]))]
    ensures db.users == old(db.users)
  {
    BadEmailRequest(isEmail);
    WeakPasswordRequests(isEmail);
    badEmail := Register(db, "anotheruser", "invalidemail", "testpassword123", isEmail, hasher, salt, token);
    var w1 := Register(db, "weakpassworduser", "weakpassworduser@example.com", "12345678", isEmail, hasher, salt, token);
    var w2 := Register(db, "weakpassworduser2", "weakpassworduser2@example.com", "abcdefgh", isEmail, hasher, salt, token);
    var w3 := Register(db, "weakpassworduser3", "weakpassworduser3@example.com", "abc123", isEmail, hasher, salt, token);
    weak := [w1, w2, w3];
  }
}
