/** The two foreign libraries the credential code calls, bcrypt and jsonwebtoken,
    as values of the configuration built at start-up. Their operations are
    function-valued fields; what the code relies on about them is stated as the
    predicates `HasherSound` and `SignerSound`, which the lemmas take as hypotheses. */
module Crypto {

  import opened Wrappers

  /** The output of `bcrypt.genSalt(10)`: random, so always a parameter. */
  type Salt = string

  const SaltRounds := 10

  /** bcrypt's `hash(password, salt)` and `compare(password, hashed)`. */
  datatype PasswordHasher = PasswordHasher(hash: (string, Salt) -> string, compare: (string, string) -> bool)

  /** A password matches its own hash, whatever the salt. */
  ghost predicate HasherSound(h: PasswordHasher) {
    forall p, salt :: h.compare(p, h.hash(p, salt))
  }

  /** bcrypt hashes are 60 characters long. */
  const BcryptHashLength := 60

  ghost predicate BcryptShaped(h: PasswordHasher) {
    forall p, salt :: |h.hash(p, salt)| == BcryptHashLength
  }

  /** The payload of a session token: the user id, issue time and expiry, in seconds. */
  datatype Claims = Claims(id: nat, iat: int, exp: int)

  /** `jwt.sign(payload, key)` and the signature check of `jwt.verify`, which yields
      the payload when the token was signed with `key`. */
  datatype Signer = Signer(sign: (Claims, string) -> string, decode: (string, string) -> Option<Claims>)

  /** A signed token decodes to its payload under the same key; tokens are not empty
      and hold no space (compact JWTs are base64url pieces joined by dots). */
  ghost predicate SignerSound(s: Signer) {
    forall c, key :: s.decode(s.sign(c, key), key) == Some(c) && s.sign(c, key) != [] && ' ' !in s.sign(c, key)
  }

  /** The configuration read once at start-up: `JWT_SECRET` (possibly unset) and
      the two libraries. */
  datatype AuthConfig = AuthConfig(secret: Option<string>, signer: Signer, hasher: PasswordHasher)

  /** jsonwebtoken refuses a falsy key, so an empty `JWT_SECRET` counts as unset. */
  predicate SecretSet(secret: Option<string>) {
    secret.Some? && secret.value != ""
  }

  /** Why `jwt.verify` throws: no token (`undefined` or empty), no (or an empty) secret,
      a bad signature or malformed token, or an expired one. */
  datatype VerifyError = NoJwt | NoSecret | BadSignature | Expired

  /** `jwt.verify(token, secret)` at clock time `now` (seconds): the checks in the
      library's order; a token is expired once `now` reaches `exp`. */
  function Verify(config: AuthConfig, token: Option<string>, now: int): (r: Result<Claims, VerifyError>)
    ensures r.Success? <==>
      && token.Some? && token.value != [] && SecretSet(config.secret)
      && config.signer.decode(token.value, config.secret.value).Some?
      && now < config.signer.decode(token.value, config.secret.value).value.exp
    ensures r.Success? ==> r.value == config.signer.decode(token.value, config.secret.value).value
  {
    if token.None? || token.value == [] then Failure(NoJwt)
    else if !SecretSet(config.secret) then Failure(NoSecret)
    else match config.signer.decode(token.value, config.secret.value)
      case None => Failure(BadSignature)
      case Some(claims) => if now >= claims.exp then Failure(Expired) else Success(claims)
  }
}
