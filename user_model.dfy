/** The user schema (models/User.js): setters, validators and the unique e-mail. */
module UserModel {

  import opened Wrappers
  import opened Text
  import opened EmailPattern

  type UserId = nat

  /** A stored user; `password` holds whatever the controller stored (the hash). */
  datatype User = User(id: UserId, name: string, email: string, password: string)

  /** A user as `select("-password")` returns it. */
  datatype PublicUser = PublicUser(id: UserId, name: string, email: string)

  function WithoutPassword(u: User): PublicUser {
    PublicUser(u.id, u.name, u.email)
  }

  const MinPasswordLength := 6

  /** The `lowercase` and `trim` setters of `email`, applied on assignment and, by
      Mongoose's query casting, to `findOne({ email })` filters too. */
  function NormalizeEmail(email: string): (r: string)
    ensures r == [] ==> forall i :: 0 <= i < |email| ==> IsTrimmable(email[i])
    ensures |r| <= |email|
    ensures r == [] || (!IsTrimmable(r[0]) && !IsTrimmable(r[|r| - 1]))
    ensures forall c :: c in r ==> !('A' <= c <= 'Z')
  {
    ToLowerHasNoUpper(email);
    Trim(ToLower(email))
  }

  /** The normalised address is the lower-cased one cut at its first and last
      characters that are not blank. */
  lemma NormalizeEmailCutsEnds(email: string)
    ensures StripsEnds(ToLower(email), NormalizeEmail(email))
  {
    TrimCutsEnds(ToLower(email));
  }

  /** Normalising a normalised address changes nothing. */
  lemma NormalizeEmailIdempotent(email: string)
    ensures NormalizeEmail(NormalizeEmail(email)) == NormalizeEmail(email)
  {
    var n := NormalizeEmail(email);
    assert forall i :: 0 <= i < |n| ==> n[i] in n && LowerChar(n[i]) == n[i];
    assert ToLower(n) == n;
    TrimIdempotent(ToLower(email));
  }

  /** The document `User.create({ name, email, password })` builds: `name` and
      `email` pass through their setters, `password` is kept as given. */
  function NewUser(id: UserId, name: string, email: string, password: string): User {
    User(id, Trim(name), NormalizeEmail(email), password)
  }

  /** The stored name and address are already in normal form, so the setters would
      leave them as they are; the id and the password are kept. */
  lemma NewUserIsNormal(id: UserId, name: string, email: string, password: string)
    ensures var u := NewUser(id, name, email, password);
      && u.id == id && u.password == password
      && Trim(u.name) == u.name && NormalizeEmail(u.email) == u.email
  {
    TrimIdempotent(name);
    NormalizeEmailIdempotent(email);
  }

  datatype UserPath = NamePath | EmailPath | PasswordPath

  /** The validation errors of a user document (values after the setters). */
  function Violations(u: User): set<UserPath> {
    NameErrors(u.name) + EmailErrors(u.email) + PasswordErrors(u.password)
  }

  /** `required` fails on an empty string. */
  function NameErrors(name: string): (r: set<UserPath>)
    ensures r <= {NamePath}
  {
    if name == [] then {NamePath} else {}
  }

  /** `required`, then `match` against the e-mail expression. */
  function EmailErrors(email: string): (r: set<UserPath>)
    ensures r <= {EmailPath}
  {
    if email == [] || !IsValidEmail(email) then {EmailPath} else {}
  }

  /** `required`, then `minlength: 6`. */
  function PasswordErrors(password: string): (r: set<UserPath>)
    ensures r <= {PasswordPath}
  {
    if |password| < MinPasswordLength then {PasswordPath} else {}
  }

  /** A document is saved exactly when its name is not blank, its normalised address
      matches the e-mail expression and its stored password has six characters. */
  lemma NewUserValidIff(id: UserId, name: string, email: string, password: string)
    ensures Violations(NewUser(id, name, email, password)) == {} <==>
      && Trim(name) != []
      && MatchesEmailRegex(NormalizeEmail(email))
      && |password| >= MinPasswordLength
  {
    EmailCheckMatchesRegex(NormalizeEmail(email));
  }

  /** No two users share an address (`unique: true`). */
  predicate UniqueEmails(users: seq<User>) {
    forall i, j :: 0 <= i < j < |users| ==> users[i].email != users[j].email
  }

  /** No two users share an id. */
  predicate UniqueIds(users: seq<User>) {
    forall i, j :: 0 <= i < j < |users| ==> users[i].id != users[j].id
  }

  /** `User.findOne({ email })`: the first stored user with that address. */
  function FindByEmail(users: seq<User>, email: string): (r: Option<User>)
    ensures r.Some? ==> r.value in users && r.value.email == email
    ensures r.None? ==> forall i :: 0 <= i < |users| ==> users[i].email != email
  {
    if users == [] then None
    else if users[0].email == email then Some(users[0])
    else FindByEmail(users[1..], email)
  }

  /** `User.findById(id)`: the first stored user with that id. */
  function FindById(users: seq<User>, id: UserId): (r: Option<User>)
    ensures r.Some? ==> r.value in users && r.value.id == id
    ensures r.None? ==> forall i :: 0 <= i < |users| ==> users[i].id != id
  {
    if users == [] then None
    else if users[0].id == id then Some(users[0])
    else FindById(users[1..], id)
  }

  /** With unique addresses, looking up a stored user's address finds that user. */
  lemma FindByEmailFindsMember(users: seq<User>, i: nat)
    requires UniqueEmails(users) && i < |users|
    ensures FindByEmail(users, users[i].email) == Some(users[i])
  {
    var r := FindByEmail(users, users[i].email);
    var j :| 0 <= j < |users| && users[j] == r.value;
    assert j == i;
  }

  /** With unique ids, looking up a stored user's id finds that user. */
  lemma FindByIdFindsMember(users: seq<User>, i: nat)
    requires UniqueIds(users) && i < |users|
    ensures FindById(users, users[i].id) == Some(users[i])
  {
    var r := FindById(users, users[i].id);
    var j :| 0 <= j < |users| && users[j] == r.value;
    assert j == i;
  }

  /** Adding a user whose address is not taken keeps the addresses unique. */
  lemma AppendKeepsEmailsUnique(users: seq<User>, u: User)
    requires UniqueEmails(users)
    requires FindByEmail(users, u.email).None?
    ensures UniqueEmails(users + [u])
  {
  }

  /** Looking up an address that no earlier user holds finds the appended user. */
  lemma {:induction false} FindByEmailAppend(users: seq<User>, u: User)
    requires forall i :: 0 <= i < |users| ==> users[i].email != u.email
    ensures FindByEmail(users + [u], u.email) == Some(u)
  {
    if users != [] {
      assert (users + [u])[1..] == users[1..] + [u];
      FindByEmailAppend(users[1..], u);
    }
  }

  /** Appending a user leaves the lookup of any other address as it was. */
  lemma {:induction false} FindByEmailAppendOther(users: seq<User>, u: User, email: string)
    requires u.email != email
    ensures FindByEmail(users + [u], email) == FindByEmail(users, email)
  {
    if users != [] {
      assert (users + [u])[1..] == users[1..] + [u];
      FindByEmailAppendOther(users[1..], u, email);
    }
  }
}
