/** Registration and login (controllers/authController.js) over a user table. */
module AuthController {

  import opened Wrappers
  import opened Crypto
  import opened UserModel
  import opened Http
  import ErrorHandler

  /** `expiresIn: "15min"`, in seconds. */
  const TokenLifetime := 15 * 60

  /** The message jsonwebtoken throws when the secret is unset. */
  const NoSecretMessage := "secretOrPrivateKey must have a value"

  /** `generateToken(id)` at clock time `now`: signs `{ id }` with the issue time and
      an expiry fifteen minutes later; fails when `JWT_SECRET` is unset or empty. */
  function GenerateToken(config: AuthConfig, id: UserId, now: int): (r: Result<string, string>)
    ensures r.Success? <==> SecretSet(config.secret)
    ensures r.Failure? ==> r.error == NoSecretMessage
  {
    if SecretSet(config.secret) then
      Success(config.signer.sign(Claims(id, now, now + TokenLifetime), config.secret.value))
    else
      Failure(NoSecretMessage)
  }

  /** A token issued at `issued` verifies to `{ id }` until fifteen minutes have passed,
      and is expired from then on. */
  lemma IssuedTokenVerifies(config: AuthConfig, id: UserId, issued: int, now: int)
    requires SignerSound(config.signer) && SecretSet(config.secret)
    ensures Verify(config, Some(GenerateToken(config, id, issued).value), now)
         == if now < issued + TokenLifetime
            then Success(Claims(id, issued, issued + TokenLifetime))
            else Failure(Expired)
  {
    var claims := Claims(id, issued, issued + TokenLifetime);
    assert config.signer.decode(config.signer.sign(claims, config.secret.value), config.secret.value) == Some(claims);
  }

  /** What the handlers send: a `{ message }` body or the user's `_id`, `name`,
      `email` and `token`, never the password. */
  datatype AuthBody = Message(text: string) | Identity(id: UserId, name: string, email: string, token: string)

  /** A sent JSON reply, or an error passed to `next` while `res` holds `status`;
      the error middleware then answers with `ErrorHandler.ResponseStatus(status)`. */
  datatype AuthReply = Sent(status: int, body: AuthBody) | Forwarded(status: int, message: string)

  const UserExists: AuthReply := Sent(BadRequest, Message("User already exists"))
  const InvalidCredentials: AuthReply := Sent(BadRequest, Message("Invalid credentials"))
  const UserValidationFailed := "User validation failed"

  /** The reply to a user who has just been identified: `res.status(status)` (200
      for login, 201 for register) is set before the body, whose `token` field calls
      `generateToken`; a throw there reaches `next` with that status already set. */
  function IdentityReply(status: int, config: AuthConfig, u: User, now: int): (r: AuthReply)
    ensures r.status == status
    ensures r.Sent? <==> SecretSet(config.secret)
    ensures r.Sent? ==> r.body == Identity(u.id, u.name, u.email, GenerateToken(config, u.id, now).value)
    ensures r.Forwarded? ==> r.message == NoSecretMessage
  {
    match GenerateToken(config, u.id, now)
    case Success(token) => Sent(status, Identity(u.id, u.name, u.email, token))
    case Failure(e) => Forwarded(status, e)
  }

  /** Without a usable secret, the response to an identified user carries the
      status set before signing: registration answers 201 with the error body, and
      login, which never set a status, answers 500. */
  lemma UnsignedReplyStatus(config: AuthConfig, u: User, now: int)
    requires !SecretSet(config.secret)
    ensures IdentityReply(Created, config, u, now) == Forwarded(Created, NoSecretMessage)
    ensures ErrorHandler.ResponseStatus(IdentityReply(Created, config, u, now).status) == Created
    ensures ErrorHandler.ResponseStatus(IdentityReply(Ok, config, u, now).status) == InternalServerError
  {
  }

  /** `loginUser` on the user table `users`: the specification of `UserStore.Login`. */
  function LoginResult(users: seq<User>, config: AuthConfig, email: string, password: string, now: int): (r: AuthReply)
    ensures r.Sent? ==> r == InvalidCredentials || (r.status == Ok && r.body.Identity?)
    ensures r.Forwarded? ==> r == Forwarded(Ok, NoSecretMessage)
    ensures r.Sent? && r.body.Identity? ==> r.body.email == NormalizeEmail(email)
  {
    match FindByEmail(users, NormalizeEmail(email))
    case None => InvalidCredentials
    case Some(u) =>
      if !config.hasher.compare(password, u.password) then InvalidCredentials
      else IdentityReply(Ok, config, u, now)
  }

  /** Login succeeds exactly when a user holds the (normalised) address, the password
      matches that user's hash and a token can be signed; the reply then carries
      that user. An unknown address and a wrong password give the same reply. */
  lemma LoginSucceedsIff(users: seq<User>, config: AuthConfig, email: string, password: string, now: int)
    requires UniqueEmails(users)
    ensures LoginResult(users, config, email, password, now).Sent?
         && LoginResult(users, config, email, password, now).status == Ok
        <==> exists i :: 0 <= i < |users| && users[i].email == NormalizeEmail(email)
                 && config.hasher.compare(password, users[i].password) && SecretSet(config.secret)
    ensures forall i :: 0 <= i < |users| && users[i].email == NormalizeEmail(email)
                      && config.hasher.compare(password, users[i].password) && SecretSet(config.secret)
                  ==> LoginResult(users, config, email, password, now)
                      == Sent(Ok, Identity(users[i].id, users[i].name, users[i].email,
                                           GenerateToken(config, users[i].id, now).value))
    ensures (forall i :: 0 <= i < |users| ==> users[i].email != NormalizeEmail(email))
        ==> LoginResult(users, config, email, password, now) == InvalidCredentials
    ensures forall i :: 0 <= i < |users| && users[i].email == NormalizeEmail(email)
                      && !config.hasher.compare(password, users[i].password)
                  ==> LoginResult(users, config, email, password, now) == InvalidCredentials
  {
    forall i | 0 <= i < |users| && users[i].email == NormalizeEmail(email)
      ensures FindByEmail(users, NormalizeEmail(email)) == Some(users[i])
    {
      FindByEmailFindsMember(users, i);
    }
  }

  /** After a registration stores `u` with the hash of `password`, logging in with the
      same address and password succeeds and identifies `u`. */
  lemma RegisterThenLogin(users: seq<User>, config: AuthConfig, id: UserId, name: string, email: string,
                          password: string, salt: Salt, now: int)
    requires HasherSound(config.hasher) && SecretSet(config.secret)
    requires FindByEmail(users, NormalizeEmail(email)).None?
    ensures var u := NewUser(id, name, email, config.hasher.hash(password, salt));
      LoginResult(users + [u], config, email, password, now)
        == Sent(Ok, Identity(u.id, u.name, u.email, GenerateToken(config, u.id, now).value))
  {
    var u := NewUser(id, name, email, config.hasher.hash(password, salt));
    assert u.email == NormalizeEmail(email);
    FindByEmailAppend(users, u);
    assert FindByEmail(users + [u], u.email) == Some(u);
    assert config.hasher.compare(password, u.password);
  }

  /** The plaintext length never reaches the `minlength` check: only the hash is
      validated, so with bcrypt-shaped hashes any password, even an empty one, passes it. */
  lemma PasswordLengthCheckSeesHash(config: AuthConfig, id: UserId, name: string, email: string,
                                    password: string, salt: Salt)
    requires BcryptShaped(config.hasher)
    ensures PasswordPath !in Violations(NewUser(id, name, email, config.hasher.hash(password, salt)))
  {
    var hashed := config.hasher.hash(password, salt);
    assert |hashed| == BcryptHashLength;
    assert PasswordErrors(hashed) == {};
  }

  /** Adding a user under an id above every stored one keeps the ids unique and
      below the next id. */
  lemma AppendKeepsIdsUnique(users: seq<User>, u: User, nextId: UserId)
    requires UniqueIds(users) && (forall i :: 0 <= i < |users| ==> users[i].id < nextId) && u.id == nextId
    ensures UniqueIds(users + [u])
    ensures forall i :: 0 <= i < |users + [u]| ==> (users + [u])[i].id < nextId + 1
  {
  }

  /** The user table, keyed by address, with the configuration it was built with. */
  class UserStore {
    var users: seq<User>
    /** Stands in for ObjectId generation: the id the next created user gets. */
    var nextId: UserId
    const config: AuthConfig

    ghost predicate Valid()
      reads this
    {
      && UniqueEmails(users)
      && UniqueIds(users)
      && forall i :: 0 <= i < |users| ==> users[i].id < nextId
    }

    constructor (config: AuthConfig)
      ensures Valid() && users == [] && nextId == 0 && this.config == config
    {
      users := [];
      nextId := 0;
      this.config := config;
    }

    /** `registerUser`: refuses a taken address with 400; otherwise hashes the
        password, creates the user (a failed validation is forwarded) and answers
        201 with the new user and a token. The user stays created even when the
        token cannot be signed; the error then reaches `next` with 201 already set. */
    method Register(name: string, email: string, password: string, salt: Salt, now: int) returns (reply: AuthReply)
      requires Valid()
      modifies this
      ensures Valid()
      ensures FindByEmail(old(users), NormalizeEmail(email)).Some? ==>
        reply == UserExists && users == old(users) && nextId == old(nextId)
      ensures FindByEmail(old(users), NormalizeEmail(email)).None? ==>
        var u := NewUser(old(nextId), name, email, config.hasher.hash(password, salt));
        if Violations(u) != {} then
          reply == Forwarded(Ok, UserValidationFailed) && users == old(users) && nextId == old(nextId)
        else
          && users == old(users) + [u] && nextId == old(nextId) + 1
          && reply == IdentityReply(Created, config, u, now) && reply.status == Created
    {
      var userExists := FindByEmail(users, NormalizeEmail(email));
      if userExists.Some? {
        return UserExists;
      }
      var hashedPassword := config.hasher.hash(password, salt);
      var user := NewUser(nextId, name, email, hashedPassword);
      if Violations(user) != {} {
        return Forwarded(Ok, UserValidationFailed);
      }
      AppendKeepsEmailsUnique(users, user);
      AppendKeepsIdsUnique(users, user, nextId);
      users := users + [user];
      nextId := nextId + 1;
      reply := IdentityReply(Created, config, user, now);
    }

    /** `loginUser`: two lookups and early returns; the table is only read. */
    method Login(email: string, password: string, now: int) returns (reply: AuthReply)
      ensures reply == LoginResult(users, config, email, password, now)
    {
      var user := FindByEmail(users, NormalizeEmail(email));
      if user.None? {
        return InvalidCredentials;
      }
      var isMatch := config.hasher.compare(password, user.value.password);
      if !isMatch {
        return InvalidCredentials;
      }
      reply := IdentityReply(Ok, config, user.value, now);
    }
  }
}
