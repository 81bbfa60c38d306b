/**
 * The authentication handlers. `signup` inserts into the users collection;
 * `login` is a decision over a lookup and a password comparison. Password
 * hashing, hash comparison and token signing are function parameters.
 */
module UserController {
  import opened Wrappers
  import opened Http
  import opened UserModel
  import opened Store

  /** `req.body.email` and `req.body.password`. */
  datatype Credentials = Credentials(email: Option<string>, password: Option<string>)

  /** The payload and lifetime handed to `jwt.sign`: the user's id, expiring after "1h". */
  datatype Claims = Claims(id: UserId, expiresInSeconds: nat)

  const TokenLifetime: nat := 3600

  type Token = string
  type Hasher = string -> string            // bcrypt.hash(password, 10)
  type Comparer = (string, string) -> bool  // bcrypt.compare(password, storedHash)
  type Signer = Claims -> Token             // jwt.sign(payload, secret, { expiresIn })

  /** Both fields pass the `!email || !password` check. */
  predicate HasCredentials(req: Credentials)
  {
    Truthy(req.email) && Truthy(req.password)
  }

  /** The schema paths whose `required` validator fails for the document `User.create` builds. */
  function FailedPaths(email: string, hashedPassword: string): (paths: seq<string>)
    ensures paths == [] <==> email != "" && hashedPassword != ""
    ensures "email" in paths <==> email == ""
    ensures "password" in paths <==> hashedPassword == ""
  {
    (if email == "" then ["email"] else []) + (if hashedPassword == "" then ["password"] else [])
  }

  /**
   * The checks `signup` makes before it stores anything, in order: 400
   * without both fields, 400 when the (normalised) email is taken, 500 when
   * the document would fail validation. `None` means every check passed.
   */
  function SignupRejection(users: map<UserId, User>, req: Credentials, hash: Hasher): (r: Option<Reply<User>>)
    requires EmailsUnique(users)
    ensures !HasCredentials(req) ==> r == Some(Reply(BadRequest, Said("Please provide email and password"), None))
    ensures HasCredentials(req) && FindByEmail(users, req.email.value).Some? ==>
      r == Some(Reply(BadRequest, Said("User already exists"), None))
    ensures HasCredentials(req) && FindByEmail(users, req.email.value).None?
            && FailedPaths(CastEmail(req.email.value), hash(req.password.value)) != [] ==>
      r == Some(Reply(InternalError, Raised(ValidationFailed(FailedPaths(CastEmail(req.email.value), hash(req.password.value)))), None))
    ensures r.None? <==>
      && HasCredentials(req) && FindByEmail(users, req.email.value).None?
      && FailedPaths(CastEmail(req.email.value), hash(req.password.value)) == []
    ensures r.Some? ==> r.value.status != Created && r.value.body.None?
  {
    if !Truthy(req.email) || !Truthy(req.password) then
      Some(Reply(BadRequest, Said("Please provide email and password"), None))
    else if FindByEmail(users, req.email.value).Some? then
      Some(Reply(BadRequest, Said("User already exists"), None))
    else
      var failed := FailedPaths(CastEmail(req.email.value), hash(req.password.value));
      if failed != [] then Some(Reply(InternalError, Raised(ValidationFailed(failed)), None)) else None
  }

  /**
   * `signup`: a request the checks reject changes nothing; otherwise exactly
   * one new user is stored, holding the normalised email, the hash of the
   * password and no notes, and the reply is 201.
   */
  method Signup(db: Database, req: Credentials, newId: UserId, hash: Hasher) returns (reply: Reply<User>)
    requires db.Valid()
    requires newId != "" && newId !in db.users
    modifies db
    ensures db.Valid()
    ensures db.notes == old(db.notes) && db.issued == old(db.issued)
    ensures SignupRejection(old(db.users), req, hash).Some? ==>
      reply == SignupRejection(old(db.users), req, hash).value && db.users == old(db.users)
    ensures SignupRejection(old(db.users), req, hash).None? ==>
      && var u := User(newId, CastEmail(req.email.value), hash(req.password.value), []);
      && reply == Reply(Created, Said("User created successfully"), Some(u))
      && db.users == old(db.users)[newId := u]
  {
    var rejection := SignupRejection(db.users, req, hash);
    if rejection.Some? {
      return rejection.value;
    }
    var user := User(newId, CastEmail(req.email.value), hash(req.password.value), []);
    InsertUser(db, user);
    reply := Reply(Created, Said("User created successfully"), Some(user));
  }

  /** `User.create`: stores a schema-valid user with a fresh id, an untaken email and no notes. */
  method InsertUser(db: Database, u: User)
    requires db.Valid()
    requires u.id != "" && u.id !in db.users && WellFormed(u) && u.notes == []
    requires forall id :: id in db.users ==> db.users[id].email != u.email
    modifies db
    ensures db.Valid()
    ensures db.users == old(db.users)[u.id := u]
    ensures db.notes == old(db.notes) && db.issued == old(db.issued)
  {
    AddUserKeepsConsistent(db.users, db.notes, db.issued, u);
    db.users := db.users[u.id := u];
  }

  /**
   * `login`: 400 without both fields, for an unknown email, or when the
   * password does not match the stored hash; otherwise 200 and a token
   * signed over the user's id with a one-hour lifetime.
   */
  function Login(users: map<UserId, User>, req: Credentials, compare: Comparer, sign: Signer): (r: Reply<Token>)
    requires EmailsUnique(users)
    ensures r.status == Ok || r.status == BadRequest
    ensures r.body.Some? <==> r.status == Ok
    ensures !HasCredentials(req) ==> r == Reply(BadRequest, Said("Please provide email and password"), None)
    ensures HasCredentials(req) && (forall id :: id in users ==> users[id].email != CastEmail(req.email.value)) ==>
      r == Reply(BadRequest, Said("User does not exist"), None)
    ensures forall id :: HasCredentials(req) && id in users && users[id].email == CastEmail(req.email.value) ==>
      r == if compare(req.password.value, users[id].password)
           then Reply(Ok, Said("User logged in successfully"), Some(sign(Claims(id, TokenLifetime))))
           else Reply(BadRequest, Said("Invalid credentials"), None)
  {
    if !Truthy(req.email) || !Truthy(req.password) then
      Reply(BadRequest, Said("Please provide email and password"), None)
    else match FindByEmail(users, req.email.value)
      case None => Reply(BadRequest, Said("User does not exist"), None)
      case Some(id) =>
        if !compare(req.password.value, users[id].password) then
          Reply(BadRequest, Said("Invalid credentials"), None)
        else
          Reply(Ok, Said("User logged in successfully"), Some(sign(Claims(id, TokenLifetime))))
  }

  /**
   * After a successful signup, logging in with the same password and the
   * email written in any case or with surrounding white space yields the new
   * user's token, provided the hash comparison accepts the password.
   */
  lemma SignupThenLogin(
    users: map<UserId, User>, u: User, email: string, password: string, hash: Hasher, compare: Comparer, sign: Signer)
    requires Table(users) && u.id !in users
    requires u == User(u.id, CastEmail(email), hash(password), [])
    requires forall id :: id in users ==> users[id].email != u.email
    requires email != "" && password != ""
    requires compare(password, hash(password))
    ensures EmailsUnique(users[u.id := u])
    ensures forall loginEmail :: loginEmail != "" && CastEmail(loginEmail) == CastEmail(email) ==>
      Login(users[u.id := u], Credentials(Some(loginEmail), Some(password)), compare, sign)
        == Reply(Ok, Said("User logged in successfully"), Some(sign(Claims(u.id, TokenLifetime))))
  {
    var users' := users[u.id := u];
    InsertKeepsUnique(users, u);
    forall loginEmail | loginEmail != "" && CastEmail(loginEmail) == CastEmail(email)
      ensures Login(users', Credentials(Some(loginEmail), Some(password)), compare, sign)
                == Reply(Ok, Said("User logged in successfully"), Some(sign(Claims(u.id, TokenLifetime))))
    {
      FindByEmailFinds(users', u.id, loginEmail);
    }
  }
}
