# User account service: a Dafny model

This project models the account lifecycle of a small user service.

- **Registration.** The request body is validated: username shape, email syntax and password strength. The store then rejects a taken username, then a taken email. Otherwise it appends a fresh, unverified account that holds a hashed password and a verification token.
- **Email verification.** The first account holding the presented token is marked verified and its token is cleared, so each token works once.
- **Login.** Login reads the table and nothing else. An unknown email and a wrong password fail with the same error. "Email not verified" is reported only after the password has matched. Success yields a bearer token whose subject is the account's email.

Modules follow the source files:

| file | module | models |
|---|---|---|
| `wrappers.dfy` | `Wrappers` | `Option` and `Result` |
| `policy.dfy` | `UserPolicy` | the `UserCreate` field rules and `validate_password` of `app/modules/user/routes.py` |
| `errors.dfy` | `UserErrors` | the error kinds and their `detail` texts |
| `credentials.dfy` | `Credentials` | the foreign hasher and the session token, as interfaces only |
| `service.dfy` | `UserService` | `Account`, the `Database` class holding the users table as a `seq`, the lookups and `create_user` |
| `routes.dfy` | `UserRoutes` | the `register`, `verify_email` and `login` handlers |
| `scenarios.dfy` | `UserScenarios` | client runs of the handlers, from the test suite and a sample session |

`Database` is a class whose `users` field the state-changing operations reassign (`CreateUser`, `Register`, `VerifyEmail`; each `modifies db`). `Login` is a function of the table, so it cannot change it. The foreign pieces are parameters:

- the bcrypt pair is a `Hasher` value, with `hash(password, salt)` and `verify(password, hash)`;
- the random salt and the uuid4 verification token are arguments;
- email syntax is a predicate argument `isEmail`.

No relation between `hash` and `verify` is assumed globally. A member that needs `verify` to accept what `hash` produced says so in its `requires`.

The table's invariant `UserService.Valid` says four things:

- ids follow insertion order;
- usernames are unique;
- emails are unique;
- outstanding verification tokens are unique.

`CreateUser` and `Register` preserve it when the new token is held by no account. `VerifyEmail` preserves it always.

## Model

| member | source | states |
|---|---|---|
| `UserPolicy.Any` | app/modules/user/routes.py:28-30 | `any(p(c) for c in s)` is true exactly when some character of `s` satisfies `p` |
| `UserPolicy.PasswordCheck` | app/modules/user/routes.py:24-32 | a password is accepted iff it has at least 8 characters, a digit and a letter; the checks run in the order length, digit, letter, and the first that fails is the one reported |
| `UserPolicy.PasswordMessage` | app/modules/user/routes.py:26-31 | the message each of the three checks raises |
| `UserPolicy.ValidatePassword` | app/modules/user/routes.py:24-32 | a strong password is returned unchanged; a password under 8 characters fails with "Password must be at least 8 characters long"; a long enough one without a digit fails with "Password must contain at least one digit"; one with a digit but no letter fails with "Password must contain at least one letter"; each holds in both directions |
| `UserPolicy.DigitsOnlyRejected` | app/modules/user/routes.py:28-31 | every password of 8 or more digits and nothing else passes the digit check and fails the letter check |
| `UserPolicy.LettersOnlyRejected` | app/modules/user/routes.py:26-29 | every password of 8 or more letters and nothing else fails the digit check |
| `UserPolicy.PasswordExamples` | app/tests/test_user.py:86-104 | "12345678" fails for lack of a letter, "abcdefgh" for lack of a digit, "abc123" for length; "testpassword123" and "Testpass1" are accepted |
| `UserPolicy.ValidationErrors` | app/modules/user/routes.py:19-32 | every field of the registration body is checked and every failing field is reported, in declaration order; the body passes iff the username is valid, the email is well formed and the password is strong |
| `UserPolicy.ValidUsername` | app/modules/user/routes.py:20 | the username rule as intended: 3 to 50 characters, each from `[A-Za-z0-9_]` |
| `UserPolicy.UsernameAcceptedAsWritten` | app/modules/user/routes.py:20 | the username rule as written: the length bounds, and a run of at least one `[A-Za-z0-9_]` character that reaches the end of the string or stops just before a final newline |
| `UserPolicy.UsernameAsWrittenCharacterised` | app/modules/user/routes.py:20 | the username rule as written accepts exactly the valid usernames plus a valid-shaped stem followed by one final newline |
| `UserPolicy.TrailingNewlineUsernameAccepted` | app/modules/user/routes.py:20 | "abc\n" passes the rule as written but is not a valid username |
| `UserPolicy.ValidUsernameHasNoNewline` | app/modules/user/routes.py:20 | a valid username (3 to 50 characters from `[A-Za-z0-9_]`) contains no newline and also passes the rule as written |
| `UserPolicy.UsernameExamples` | app/modules/user/routes.py:20 | "alice", "testuser", "newuser", "anotheruser", "weakpassworduser", "weakpassworduser2" and "weakpassworduser3" are valid usernames; "ab" (too short) and "bad name" (a space) are not |
| `UserErrors.Detail` | app/modules/user/routes.py:42-67 | the `detail` text of each failure the handlers and `create_user` raise |
| `UserErrors.DetailsDistinct` | app/modules/user/routes.py:42-67 | two failure kinds have the same detail text exactly when they are the same kind |
| `UserService.FirstIndex` | app/modules/user/service.py:31 | `.first()` of a filtered query: the least index whose row satisfies the filter, or none exactly when no row does |
| `UserService.GetUserByUsername` | app/modules/user/service.py:30-31 | returns the first row with that username, and none exactly when no row has it |
| `UserService.GetUserByEmail` | app/modules/user/service.py:33-34 | returns the first row with that email, and none exactly when no row has it |
| `UserService.Valid` | app/modules/user/service.py:8-28 | the table invariant `create_user` maintains: ids follow insertion order, and usernames, emails and outstanding tokens are each unique |
| `UserService.EmailLookupFindsOwner` | app/modules/user/service.py:12-13 | in a table whose emails are unique, looking up an account's email finds that very account |
| `UserService.CreateUser` | app/modules/user/service.py:8-28 | a taken username fails with UsernameTaken (also when the email is taken too); otherwise a taken email fails with EmailTaken; both leave the table unchanged; success appends exactly one row with the next id, the given username and email, the hasher's output, unverified, holding the new token; uniqueness is preserved when the token is fresh; a failure's detail is "Username already taken" when the username is taken and "Email already registered" otherwise |
| `UserRoutes.Public` | app/modules/user/routes.py:38 | the response of `register`: id, username, email and is_verified of the account, without the hash and the token |
| `UserRoutes.MarkVerified` | app/modules/user/routes.py:48-49 | a verified row: is_verified set and the token cleared, every other field kept |
| `UserRoutes.Register` | app/modules/user/routes.py:34-38 | validation failures are reported before the store is touched; success happens exactly for a valid body with an unused username and email, returns only id, username, email and is_verified = false, and appends the new row; every failure leaves the table unchanged |
| `UserRoutes.VerifyEmail` | app/modules/user/routes.py:40-55 | a token no row holds fails with InvalidToken and changes nothing; otherwise the first row holding it becomes verified with its token cleared and no other row changes; afterwards no row holds the token, so it works once; a failure's detail is "Invalid or expired token" |
| `UserRoutes.Login` | app/modules/user/routes.py:57-73 | a malformed email fails validation; an unknown email or a wrong password gives InvalidCredentials; EmailNotVerified happens exactly when the account exists, the password matches and it is unverified; success happens exactly when all three checks pass, and yields a bearer token for the email |
| `UserRoutes.LoginFailuresIndistinguishable` | app/modules/user/routes.py:59-64 | an unknown email and a known email with a wrong password give the identical failure, with detail "Invalid email or password" |
| `UserRoutes.LoginFailureDetail` | app/modules/user/routes.py:59-67 | for a well-formed email, a login failure's detail is "Email not verified" when the first account with that email accepts the password, and "Invalid email or password" otherwise |
| `UserRoutes.LoginBeforeVerification` | app/modules/user/service.py:18-23 | a freshly created account is unverified, so login with its own password fails with EmailNotVerified |
| `UserRoutes.LoginAfterVerification` | app/modules/user/routes.py:48-73 | once its row is verified, an account logs in with its password and receives a bearer token for its email |
| `UserScenarios.AccountLifecycle` | app/modules/user/routes.py:34-73 | on a fresh database and for any valid request: register returns id 1 unverified; login that early fails with EmailNotVerified; verify succeeds; login then succeeds with a bearer token; a wrong password fails with InvalidCredentials; the consumed token fails with InvalidToken |
| `UserScenarios.SampleRequestValid` | app/modules/user/routes.py:19-32 | the request ("alice", "a@x.com", "Testpass1") passes validation |
| `UserScenarios.TestRequestValid` | app/tests/test_user.py:35-76 | the test suite's well-formed registration requests pass validation |
| `UserScenarios.BadEmailRequest` | app/tests/test_user.py:78-84 | the request ("anotheruser", "invalidemail", "testpassword123") fails on its email alone |
| `UserScenarios.WeakPasswordRequests` | app/tests/test_user.py:86-104 | the requests of "weakpassworduser", "weakpassworduser2" and "weakpassworduser3", each with its own email, fail on their password alone: "12345678" for lack of a letter, "abcdefgh" for lack of a digit, "abc123" for length |
| `UserScenarios.DuplicateRegistrations` | app/tests/test_user.py:60-76 | against a table holding "testuser", a second "testuser" fails with UsernameTaken, detail "Username already taken", and "newuser" with the same email fails with EmailTaken, detail "Email already registered"; the table is unchanged |
| `UserScenarios.RejectedRequests` | app/tests/test_user.py:78-104 | against a table in any state, the invalid-email request and the three weak-password requests, with the test's own usernames and emails, are rejected by validation and leave the table unchanged |

## Findings

| source | as written | input that shows it | evidently intended | confidence | as-written member | corrected member |
|---|---|---|---|---|---|---|
| app/modules/user/routes.py:20 | the username is checked with Python's `re.match` against `^[a-zA-Z0-9_]+$`, and `$` also matches just before a final newline | the username "abc\n" (4 characters) is accepted | only characters from `[A-Za-z0-9_]` | medium (the pydantic 1.x regex semantics), not executed | `UserPolicy.TrailingNewlineUsernameAccepted` | `UserPolicy.ValidUsernameHasNoNewline` |

The rest of the model, `ValidationErrors` and `Register` included, uses the intended rule `ValidUsername`. The as-written rule is `UsernameAcceptedAsWritten`. `UsernameAsWrittenCharacterised` states exactly where the two rules differ.

## Left out

- ValidationErrors: applies the intended username rule `ValidUsername`, not the rule as written, so a username with one final newline such as "abc\n" is reported as BadUsername, while the source accepts it (see "## Findings"). `UsernameAsWrittenCharacterised` states exactly which usernames are affected.
- Register: inherits that difference from `ValidationErrors`. The model refuses a body whose username ends in one newline, while the source registers it and inserts the row.

- Password hashing and checking (app/modules/user/utils.py:8-14) are a foreign library. They are the abstract `Hasher`: the model records the hasher's output but does not know bcrypt.
- CreateUser: does not state that the stored hash differs from the plaintext. That is a property of bcrypt, which is not modelled. The model only states that the stored value is the hasher's output for the password and salt.
- JWT encoding, the secret key, the algorithm and the 30-minute expiry from the wall clock (app/modules/user/utils.py:24-33) are left out. The session token is the abstract `AccessToken`, which carries only its subject.
- uuid4 randomness (app/modules/user/service.py:16) is left out. The token is an argument. Preservation of token uniqueness is stated on the condition that the token is fresh, because the source never checks it.
- `send_verification_email` (app/modules/user/utils.py:16-18) is left out. It only prints.
- `EmailStr` syntax validation and its normalisation are library-defined. Syntax is the predicate argument `isEmail`. Emails are compared as given.
- `isdigit` and `isalpha` are Unicode-aware in Python. The model restricts them to ASCII digits and letters.
- Pydantic checks the password field's own `min_length=8` before `validate_password` runs, so a short password gets the library's message, not the validator's. Both are the same error kind here, `TooShort`. Pydantic's message texts for username and email are not modelled.
- The id of a new row is taken to be the table size plus one. That is what the database's auto-increment gives when no row is ever deleted. `models.py` is not part of this model.
- HTTP routing, status codes, dependency injection, session commit and refresh, logging, CORS and table creation (app/main.py) are plumbing and are left out.
- `get_profile` (app/modules/user/routes.py:75-77) depends on the authentication dependency `get_current_user`, which is not part of this model. It is left out.
- A race between the uniqueness checks and the insert under concurrent requests is not modelled. The model is sequential.
- The login tests edit rows directly before logging in (app/tests/test_user.py:106-157). They are not replayed step by step. `LoginAfterVerification`, `LoginFailuresIndistinguishable` and `AccountLifecycle` state the outcomes those tests pin down.
