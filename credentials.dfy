/** The foreign pieces the account service calls into: the bcrypt hasher of
    passlib and the JWT encoder. Both are opaque here; only their interfaces
    are modelled. */
module Credentials {

  /** A password hasher. `hash` is salted, so the random salt is an explicit
      input; `verify` checks a plaintext against a stored hash. Nothing relates
      the two in general: a member that needs `verify` to accept what `hash`
      produced says so in its own `requires`. */
  datatype Hasher = Hasher(hash: (string, nat) -> string, verify: (string, string) -> bool)

  /** A session token, reduced to the one claim the service puts in it: the
      subject (the account's email). Signature and expiry are not modelled. */
  datatype AccessToken = AccessToken(subject: string)
}
