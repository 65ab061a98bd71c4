/**
 * What the handlers put into and read out of a signed token. Signing and
 * verification themselves are oracles: the secret, the signature scheme and
 * the clock are not modelled.
 */
module Jwt {
  import opened Wrappers

  /** The token payload `{ id, email }`. */
  datatype Claims = Claims(id: string, email: string)

  /** A call to sign: the payload and the `expiresIn` option. */
  datatype SignRequest = SignRequest(payload: Claims, expiresIn: string)

  /** Verification with the shared secret: the decoded payload, or None for a bad or expired token. */
  type Verifier = string -> Option<Claims>
}
