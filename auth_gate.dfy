/** The `protect` middleware (middleware/authMiddleware.js): reads the bearer token,
    verifies it and attaches the user to the request. */
module AuthGate {

  import opened Wrappers
  import opened Text
  import opened Crypto
  import opened UserModel
  import opened Http
  import AuthController

  /** The outcome of reading the `Authorization` header: no bearer credential, or
      the prefix is there and `split(" ")[1]` gave this (possibly absent) token. */
  datatype HeaderCheck = NoBearer | Bearer(token: Option<string>)

  /** `req.headers.authorization?.startsWith("Bearer")`, then `split(" ")[1]`. The
      prefix is matched case-sensitively and need not be followed by a space. */
  function ReadAuthorization(header: Option<string>): (r: HeaderCheck)
    ensures r.NoBearer? <==> header.None? || !StartsWith(header.value, "Bearer")
    ensures r.Bearer? ==> r.token == Field(Split(header.value), 1)
  {
    if header.Some? && StartsWith(header.value, "Bearer") then Bearer(Field(Split(header.value), 1))
    else NoBearer
  }

  /** `req.user`: never assigned, assigned `null` (no user has the token's id), or a user. */
  datatype UserSlot = Unset | NullUser | Bound(user: PublicUser)

  const NoTokenMessage := "Not authorized, no token"
  const TokenFailedMessage := "Not authorized, token failed"

  /** Where the gate sends the request: a 401 with this message, or on to the
      next handler with `req.user` set to `user`. */
  datatype GateOutcome = Rejected(message: string) | Admitted(user: UserSlot)

  /** The decision `protect` takes, as a function of the header, the user table
      and the clock: the specification of `Protect`. */
  function Gate(header: Option<string>, users: seq<User>, config: AuthConfig, now: int): (r: GateOutcome)
    ensures r == Rejected(NoTokenMessage) <==> ReadAuthorization(header).NoBearer?
    ensures r == Rejected(TokenFailedMessage) <==>
              ReadAuthorization(header).Bearer? && Verify(config, ReadAuthorization(header).token, now).Failure?
    ensures r.Rejected? ==> r.message == NoTokenMessage || r.message == TokenFailedMessage
    ensures r.Admitted? ==> r.user != Unset
    ensures r.Admitted? ==>
              var id := Verify(config, ReadAuthorization(header).token, now).value.id;
              && (r.user == NullUser <==> forall i :: 0 <= i < |users| ==> users[i].id != id)
              && (r.user.Bound? ==> r.user.user.id == id)
    ensures r.Admitted? && r.user.Bound? ==>
              FindById(users, r.user.user.id).Some? && WithoutPassword(FindById(users, r.user.user.id).value) == r.user.user
  {
    match ReadAuthorization(header)
    case NoBearer => Rejected(NoTokenMessage)
    case Bearer(token) =>
      match Verify(config, token, now)
      case Failure(_) => Rejected(TokenFailedMessage)
      case Success(claims) =>
        match FindById(users, claims.id)
        case None => Admitted(NullUser)
        case Some(u) => Admitted(Bound(WithoutPassword(u)))
  }

  /** Express's `req` as far as the gate uses it. */
  class Request {
    const authorization: Option<string>
    var user: UserSlot

    constructor (authorization: Option<string>)
      ensures this.authorization == authorization && user == Unset
    {
      this.authorization := authorization;
      user := Unset;
    }
  }

  /** `protect(req, res, next)`: either attaches the user and calls `next` (the
      result says whether it did), or answers 401 and leaves `req.user` alone. */
  method Protect(req: Request, res: Response, users: seq<User>, config: AuthConfig, now: int)
    returns (nextCalled: bool)
    modifies req, res
    ensures var outcome := Gate(req.authorization, users, config, now);
      match outcome
      case Admitted(slot) =>
        nextCalled && req.user == slot && res.statusCode == old(res.statusCode) && res.body == old(res.body)
      case Rejected(message) =>
        !nextCalled && req.user == old(req.user)
        && res.statusCode == Unauthorized && res.body == Some(MessageBody(message))
  {
    var check := ReadAuthorization(req.authorization);
    if check.Bearer? {
      var decoded := Verify(config, check.token, now);
      if decoded.Success? {
        var found := FindById(users, decoded.value.id);
        req.user := if found.Some? then Bound(WithoutPassword(found.value)) else NullUser;
        nextCalled := true;
      } else {
        res.Status(Unauthorized);
        res.Json(MessageBody(TokenFailedMessage));
        nextCalled := false;
      }
    } else {
      res.Status(Unauthorized);
      res.Json(MessageBody(NoTokenMessage));
      nextCalled := false;
    }
  }

  /** A missing header, or one not starting with `Bearer`, is turned away as "no token". */
  lemma NoBearerRejected(header: Option<string>, users: seq<User>, config: AuthConfig, now: int)
    requires header.None? || !StartsWith(header.value, "Bearer")
    ensures Gate(header, users, config, now) == Rejected(NoTokenMessage)
  {
  }

  /** `Bearer` followed directly by a space-free text (`"Bearerxyz"`) passes the
      prefix check but has no second field, so it fails as "token failed". */
  lemma BearerWithoutSpaceFails(rest: string, users: seq<User>, config: AuthConfig, now: int)
    requires ' ' !in rest
    ensures Gate(Some("Bearer" + rest), users, config, now) == Rejected(TokenFailedMessage)
  {
    var header := "Bearer" + rest;
    assert header[..6] == "Bearer";
    assert ' ' !in "Bearer";
    assert ' ' !in header by {
      forall i | 0 <= i < |header|
        ensures header[i] != ' '
      {
        if i >= 6 { assert header[i] == rest[i - 6]; }
      }
    }
    SplitJoin([header]);
  }

  /** A token issued for a stored user, presented as `Bearer <token>` before it
      expires, admits the request with that user, without the password. */
  lemma IssuedTokenAdmits(users: seq<User>, config: AuthConfig, i: nat, issued: int, now: int)
    requires SignerSound(config.signer) && SecretSet(config.secret)
    requires UniqueIds(users) && i < |users|
    requires issued <= now < issued + AuthController.TokenLifetime
    ensures var token := AuthController.GenerateToken(config, users[i].id, issued).value;
      Gate(Some("Bearer " + token), users, config, now) == Admitted(Bound(WithoutPassword(users[i])))
  {
    var token := AuthController.GenerateToken(config, users[i].id, issued).value;
    var claims := Claims(users[i].id, issued, issued + AuthController.TokenLifetime);
    assert token == config.signer.sign(claims, config.secret.value);
    var header := "Bearer " + token;
    assert header == Join(["Bearer", token]);
    SplitJoin(["Bearer", token]);
    assert header[..6] == "Bearer";
    AuthController.IssuedTokenVerifies(config, users[i].id, issued, now);
    FindByIdFindsMember(users, i);
  }

  /** The same token is turned away as "token failed" once fifteen minutes have passed. */
  lemma ExpiredTokenFails(users: seq<User>, config: AuthConfig, id: UserId, issued: int, now: int)
    requires SignerSound(config.signer) && SecretSet(config.secret)
    requires now >= issued + AuthController.TokenLifetime
    ensures var token := AuthController.GenerateToken(config, id, issued).value;
      Gate(Some("Bearer " + token), users, config, now) == Rejected(TokenFailedMessage)
  {
    var token := AuthController.GenerateToken(config, id, issued).value;
    var claims := Claims(id, issued, issued + AuthController.TokenLifetime);
    assert token == config.signer.sign(claims, config.secret.value);
    var header := "Bearer " + token;
    assert header == Join(["Bearer", token]);
    SplitJoin(["Bearer", token]);
    assert header[..6] == "Bearer";
    AuthController.IssuedTokenVerifies(config, id, issued, now);
  }

  /** A valid token whose user no longer exists is NOT rejected: the request goes
      on with `req.user` set to `null`. */
  lemma DeletedUserAdmittedAsNull(header: Option<string>, users: seq<User>, config: AuthConfig, now: int)
    requires ReadAuthorization(header).Bearer?
    requires Verify(config, ReadAuthorization(header).token, now).Success?
    requires forall i :: 0 <= i < |users| ==> users[i].id != Verify(config, ReadAuthorization(header).token, now).value.id
    ensures Gate(header, users, config, now) == Admitted(NullUser)
  {
  }
}
