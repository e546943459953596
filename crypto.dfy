/** The two foreign libraries the service calls, kept abstract: the password
    hasher (bcryptjs) and the token issuer and verifier (jsonwebtoken). Each is a
    record of functions chosen by the caller, so nothing proved about the service
    depends on how sound the cryptography is. */
module Crypto {
  import opened Values

  /** The random salt `bcrypt.hash` draws internally, made an explicit input. */
  type Salt = string

  /** `hash(plaintext, salt)` is the stored hash; `compare(plaintext, stored)`
      says whether a candidate password matches a stored hash. */
  datatype Hasher = Hasher(hash: (string, Salt) -> string, compare: (string, string) -> bool)

  /** The claim set the service signs at login. */
  datatype Claims = Claims(userId: int, username: string, email: string)

  /** Why `jwt.verify` rejected a token. The gate reports both the same way. */
  datatype VerifyError = InvalidToken | ExpiredToken

  /** `sign(claims, secret, expiresIn, now)` issues a token at instant `now`;
      `verify(token, secret, now)` checks it at instant `now` and returns the
      decoded claims or an error. */
  datatype Tokens = Tokens(
    sign: (Claims, string, string, int) -> string,
    verify: (string, string, int) -> Result<Claims, VerifyError>)

  /** The lifetime passed to `jwt.sign` at login. */
  const TokenLifetime: string := "24h"
}
