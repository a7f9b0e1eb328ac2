/**
 * The two cryptographic libraries the backend calls, bcrypt for passwords and
 * JSON Web Tokens for sessions, as opaque functions bound to the server's
 * secret. Only the properties the handlers rely on are assumed of them, and
 * those assumptions are collected in one predicate, `Sound`.
 */
module Crypto {
  import opened Wrappers

  /** What a session token asserts about its holder: the `{id, username}`
      object that login signs. */
  datatype Claims = Claims(id: int, username: string)

  /** The bcrypt cost factor register passes to `bcrypt.hash`. */
  const SaltRounds: int := 10

  /** The token lifetime login passes as `expiresIn: "1h"`, in seconds. */
  const TokenLifetime: int := 3600

  /** The library calls, as values:
      - `hash(password, rounds, salt)` is `bcrypt.hash(password, rounds)` with
        the random salt it draws made a parameter;
      - `compare(password, hash)` is `bcrypt.compare`;
      - `sign(claims, lifetime, issuedAt)` is `jwt.sign(claims, secret,
        { expiresIn })` called at clock time `issuedAt` (seconds);
      - `verify(token, now)` is `jwt.verify(token, secret)` at clock time
        `now`: the decoded claims, or `None` for the callback's error. */
  datatype Provider = Provider(
    hash: (string, int, nat) -> string,
    compare: (string, string) -> bool,
    sign: (Claims, int, int) -> string,
    verify: (string, int) -> Option<Claims>)

  /** ASSUMED of the libraries (not provable here, since their code is not
      part of this model):
      1. a password matches any hash made from it;
      2. a token verifies, with the claims it was signed with, from its issue
         time until its lifetime has passed;
      3. after that it is rejected as expired;
      4. a token is a non-empty string with no space in it (the compact
         serialisation is three base64url parts joined by dots). */
  ghost predicate Sound(p: Provider)
  {
    && (forall password, rounds, salt :: p.compare(password, p.hash(password, rounds, salt)))
    && (forall claims, lifetime, issuedAt, now ::
          issuedAt <= now < issuedAt + lifetime ==>
            p.verify(p.sign(claims, lifetime, issuedAt), now) == Some(claims))
    && (forall claims, lifetime, issuedAt, now ::
          issuedAt + lifetime <= now ==> p.verify(p.sign(claims, lifetime, issuedAt), now) == None)
    && (forall claims, lifetime, issuedAt ::
          p.sign(claims, lifetime, issuedAt) != [] && ' ' !in p.sign(claims, lifetime, issuedAt))
  }
}
