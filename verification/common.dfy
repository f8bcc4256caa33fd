/**
 * Value types shared by the web server's modules: optional values, the
 * `ts-results` result type carrying a classified HTTP error, and the way an
 * awaited promise settles.
 */
module Common {

  datatype Option<T> = None | Some(value: T)

  /** A classified error as the web server returns it: status code, name and message. */
  datatype HttpError = HttpError(code: int, name: string, message: string)

  /** `Ok(value)` or `Err(error)`. */
  datatype Result<T> = Ok(value: T) | Err(error: HttpError)

  /**
   * How an awaited promise settles: with a value, or rejected by an
   * exception that nothing in the awaiting code catches.
   */
  datatype Settled<T> = Resolved(value: T) | Rejected

  /** The text fields of a submitted form, by name; a missing field is absent. */
  type Form = map<string, string>

  // The status codes the core uses (`StatusCodes` of http-status-codes).
  const BadRequest: int := 400
  const Unauthorized: int := 401
  const InternalServerError: int := 500
}

/**
 * The password hash of the web server: PBKDF2 (section 5.2 of RFC 8018)
 * with HMAC-SHA-512, 1000 iterations and a 64-byte key, rendered as hex.
 * The key derivation itself is not modelled: it is a deterministic function
 * value `Pbkdf2` supplied by whoever builds an account manager.
 */
module Crypto {

  /** `crypto.pbkdf2Sync(password, salt, iterations, keylen, digest).toString("hex")`. */
  type Pbkdf2 = (string, string, nat, nat, string) -> string

  const Iterations: nat := 1000
  const KeyLength: nat := 64
  const Digest: string := "sha512"

  /** The stored hash of `password` under `salt`. */
  function HashPassword(pbkdf2: Pbkdf2, password: string, salt: string): string
  {
    pbkdf2(password, salt, Iterations, KeyLength, Digest)
  }
}
