/** The account store and its operations (app/modules/user/service.py): the
    lookups by username and email, and `create_user`, which checks uniqueness
    and then inserts a fresh, unverified record. */
module UserService {
  import opened Wrappers
  import opened Credentials
  import opened UserErrors

  /** One row of the users table. */
  datatype Account = Account(
    id: nat,
    username: string,
    email: string,
    hashedPassword: string,
    isVerified: bool,
    verificationToken: Option<string>)

  /** The database session: the users table, in insertion order. */
  class Database {
    var users: seq<Account>

    constructor ()
      ensures users == []
    {
      users := [];
    }
  }

  /** `query(User).filter(cond).first()`: the index of the first row that
      satisfies `p`, or None when no row does. */
  function FirstIndex(users: seq<Account>, p: Account -> bool): (r: Option<nat>)
    ensures r.Some? ==> r.value < |users| && p(users[r.value])
    ensures r.Some? ==> forall j :: 0 <= j < r.value ==> !p(users[j])
    ensures r.None? <==> forall j :: 0 <= j < |users| ==> !p(users[j])
    decreases |users|
  {
    if users == [] then None
    else if p(users[0]) then Some(0)
    else
      match FirstIndex(users[1..], p)
      case None => None
      case Some(k) => Some(k + 1)
  }

  ghost predicate HasUsername(users: seq<Account>, username: string) {
    exists i :: 0 <= i < |users| && users[i].username == username
  }

  ghost predicate HasEmail(users: seq<Account>, email: string) {
    exists i :: 0 <= i < |users| && users[i].email == email
  }

  ghost predicate HoldsToken(users: seq<Account>, token: string) {
    exists i :: 0 <= i < |users| && users[i].verificationToken == Some(token)
  }

  /** `i` is the first row whose field matches: what `.first()` returns. */
  ghost predicate FirstWithUsername(users: seq<Account>, username: string, i: int) {
    0 <= i < |users| && users[i].username == username &&
    forall j :: 0 <= j < i ==> users[j].username != username
  }

  ghost predicate FirstWithEmail(users: seq<Account>, email: string, i: int) {
    0 <= i < |users| && users[i].email == email &&
    forall j :: 0 <= j < i ==> users[j].email != email
  }

  ghost predicate FirstWithToken(users: seq<Account>, token: string, i: int) {
    0 <= i < |users| && users[i].verificationToken == Some(token) &&
    forall j :: 0 <= j < i ==> users[j].verificationToken != Some(token)
  }

  /** `get_user_by_username`: the first row with that username, or none. */
  function GetUserByUsername(users: seq<Account>, username: string): (r: Option<Account>)
    ensures r.None? <==> !HasUsername(users, username)
    ensures r.Some? ==> exists i :: FirstWithUsername(users, username, i) && r.value == users[i]
  {
    match FirstIndex(users, (a: Account) => a.username == username)
    case None => None
    case Some(i) => Some(users[i])
  }

  /** `get_user_by_email`: the first row with that email, or none. */
  function GetUserByEmail(users: seq<Account>, email: string): (r: Option<Account>)
    ensures r.None? <==> !HasEmail(users, email)
    ensures r.Some? ==> exists i :: FirstWithEmail(users, email, i) && r.value == users[i]
  {
    match FirstIndex(users, (a: Account) => a.email == email)
    case None => None
    case Some(i) => Some(users[i])
  }

  /** The table's invariant: ids follow insertion order (the database assigns
      them; no row is ever deleted), and usernames, emails and outstanding
      verification tokens are each unique. */
  ghost predicate Valid(users: seq<Account>) {
    && (forall i :: 0 <= i < |users| ==> users[i].id == i + 1)
    && (forall i, j :: 0 <= i < j < |users| ==> users[i].username != users[j].username)
    && (forall i, j :: 0 <= i < j < |users| ==> users[i].email != users[j].email)
    && (forall i, j :: 0 <= i < j < |users| && users[i].verificationToken.Some? ==>
          users[i].verificationToken != users[j].verificationToken)
  }

  /** In a valid table every row is the one its own email finds. */
  lemma EmailLookupFindsOwner(users: seq<Account>, i: int)
    requires Valid(users) && 0 <= i < |users|
    ensures GetUserByEmail(users, users[i].email) == Some(users[i])
  {
    var email := users[i].email;
    assert HasEmail(users, email);
    var r := GetUserByEmail(users, email);
    assert r.Some?;
    var k :| FirstWithEmail(users, email, k) && r.value == users[k];
    assert !(i < k);
  }

  /** `create_user`: reject a taken username, then a taken email; otherwise
      hash the password, attach the fresh verification token and append an
      unverified record. `salt` and `token` are the random inputs of the
      hasher and of uuid4. */
  method CreateUser(db: Database, username: string, email: string, password: string,
                    hasher: Hasher, salt: nat, token: string)
    returns (r: Result<Account, Error>)
    modifies db
    ensures r == Failure(UsernameTaken) <==> HasUsername(old(db.users), username)
    ensures r == Failure(EmailTaken) <==> !HasUsername(old(db.users), username) && HasEmail(old(db.users), email)
    ensures r.Failure? ==> (r.error == UsernameTaken || r.error == EmailTaken) && db.users == old(db.users)
    ensures r.Failure? ==>
      Detail(r.error) == if HasUsername(old(db.users), username) then "Username already taken" else "Email already registered"
    ensures r.Success? ==>
      && r.value == Account(|old(db.users)| + 1, username, email, hasher.hash(password, salt), false, Some(token))
      && db.users == old(db.users) + [r.value]
    ensures Valid(old(db.users)) && !HoldsToken(old(db.users), token) ==> Valid(db.users)
  {
    if GetUserByUsername(db.users, username).Some? {
      return Failure(UsernameTaken);
    }
    if GetUserByEmail(db.users, email).Some? {
      return Failure(EmailTaken);
    }
    var hashed := hasher.hash(password, salt);
    var user := Account(|db.users| + 1, username, email, hashed, false, Some(token));
    db.users := db.users + [user];
    r := Success(user);
  }
}
