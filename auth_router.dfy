/**
 * Account registration and password login on the server (backend/routers/auth.py).
 * Login is the resource-owner password grant of section 4.3 of RFC 6749; its one
 * failure answer carries `WWW-Authenticate: Bearer` as section 3 of RFC 6750 asks.
 * Password hashing and token minting are parameters: `hash` stands for
 * get_password_hash, `mint` for create_access_token.
 */
module AuthRouter {
  import opened Wrappers
  import opened Http
  import opened Models

  /** 400: the username is already taken. */
  const UsernameTaken: HttpError := HttpError(400, "Username already registered", None)

  /** 401: the same answer for an unknown user and for a wrong password. */
  const BadCredentials: HttpError :=
    HttpError(401, "Incorrect username or password", Some("Bearer"))

  /** The `token_type` of every login answer. */
  const BearerType: string := "bearer"

  /** 500 with the database's message, when storing a new user fails. */
  function SignupFailure(message: string): (e: HttpError)
  {
    HttpError(500, "Internal Server Error: " + message, None)
  }

  /** The claims a login puts in its access token: `sub` is the username (expiry left out). */
  datatype Claims = Claims(sub: string)

  /** verify_password: the plaintext hashes to the stored hash. */
  predicate Verify(hash: string -> string, plain: string, hashed: string)
  {
    hash(plain) == hashed
  }

  /** Whether some user has this username. */
  predicate HasUsername(users: seq<User>, username: string)
  {
    exists i :: 0 <= i < |users| && users[i].username == username
  }

  /** Whether some user has this email. */
  predicate HasEmail(users: seq<User>, email: string)
  {
    exists i :: 0 <= i < |users| && users[i].email == email
  }

  /** The index of the first user with this username (`.where(username == ...).first()`). */
  function FindUser(users: seq<User>, username: string): (r: Option<nat>)
    ensures r.None? <==> !HasUsername(users, username)
    ensures r.Some? ==> r.value < |users| && users[r.value].username == username
    ensures r.Some? ==> forall j :: 0 <= j < r.value ==> users[j].username != username
  {
    if users == [] then None
    else if users[0].username == username then Some(0)
    else
      match FindUser(users[1..], username)
      case None => None
      case Some(k) => Some(k + 1)
  }

  /**
   * POST /auth/token over the user table `users`: 401 `BadCredentials` when no user has
   * the username or the password does not verify; otherwise a bearer token for the user.
   */
  function Login(users: seq<User>, username: string, password: string,
                 hash: string -> string, mint: Claims -> string): (r: Result<Token, HttpError>)
    ensures r.Err? <==> !HasUsername(users, username)
                        || !Verify(hash, password, users[FindUser(users, username).value].hashedPassword)
    ensures r.Err? ==> r.error == BadCredentials
    ensures r.Ok? ==> r.value.tokenType == BearerType
                      && r.value.accessToken == mint(Claims(username))
  {
    match FindUser(users, username)
    case None => Err(BadCredentials)
    case Some(i) =>
      if !Verify(hash, password, users[i].hashedPassword) then Err(BadCredentials)
      else Ok(Token(mint(Claims(users[i].username)), BearerType))
  }

  /** Appending a user with a new username makes it the one a lookup by that name finds. */
  lemma {:induction false} FindUserAfterInsert(users: seq<User>, u: User)
    requires !HasUsername(users, u.username)
    ensures FindUser(users + [u], u.username) == Some(|users|)
  {
    if users != [] {
      assert (users + [u])[1..] == users[1..] + [u];
      assert !HasUsername(users[1..], u.username) by {
        forall i | 0 <= i < |users[1..]| ensures users[1..][i].username != u.username {
          assert users[1..][i] == users[i + 1];
        }
      }
      FindUserAfterInsert(users[1..], u);
    }
  }

  /** Appending a user leaves the lookup of any other username unchanged. */
  lemma {:induction false} FindOtherAfterInsert(users: seq<User>, u: User, name: string)
    requires name != u.username
    ensures FindUser(users + [u], name) == FindUser(users, name)
  {
    if users == [] {
      assert FindUser([u], name) == Some(0) || FindUser([u], name) == None;
    } else {
      assert (users + [u])[1..] == users[1..] + [u];
      FindOtherAfterInsert(users[1..], u, name);
    }
  }

  /**
   * Signup then login: once a user is stored with the hash of its password, logging in
   * with that username and password yields a bearer token for it.
   */
  lemma SignupThenLogin(users: seq<User>, u: User, password: string,
                        hash: string -> string, mint: Claims -> string)
    requires !HasUsername(users, u.username) && u.hashedPassword == hash(password)
    ensures Login(users + [u], u.username, password, hash, mint)
            == Ok(Token(mint(Claims(u.username)), BearerType))
  {
    FindUserAfterInsert(users, u);
  }

  /** The user table, with the next primary key the database hands out. */
  class UserStore {
    var users: seq<User>
    var nextId: int

    /** Usernames, emails and keys are each unique (the table's unique constraints). */
    ghost predicate Valid()
      reads this
    {
      && (forall i, j :: 0 <= i < j < |users| ==> users[i].username != users[j].username)
      && (forall i, j :: 0 <= i < j < |users| ==> users[i].email != users[j].email)
      && (forall i :: 0 <= i < |users| ==> users[i].id < nextId)
    }

    constructor ()
      ensures Valid() && users == [] && nextId == 1
    {
      users := [];
      nextId := 1;
    }

    /**
     * POST /auth/signup. A taken username is refused with 400 before anything is stored;
     * email is not checked there, so a taken email reaches the database, whose unique
     * constraint fails the commit: 500. `dbDown` is a commit failure for any other reason
     * and `dbMessage` the text the database reports when a commit fails.
     */
    method Signup(body: UserCreate, hash: string -> string, dbDown: bool, dbMessage: string)
      returns (r: Result<User, HttpError>)
      requires Valid()
      modifies this
      ensures Valid()
      ensures r == Err(UsernameTaken) <==> HasUsername(old(users), body.username)
      ensures r == Err(SignupFailure(dbMessage)) <==>
        !HasUsername(old(users), body.username) && (dbDown || HasEmail(old(users), body.email))
      ensures r.Err? ==> users == old(users) && nextId == old(nextId)
      ensures r.Err? ==> r.error == UsernameTaken || r.error == SignupFailure(dbMessage)
      ensures (!HasUsername(old(users), body.username) && !HasEmail(old(users), body.email)
               && !dbDown) ==> r.Ok?
      ensures r.Ok? ==> r.value == User(old(nextId), body.username, body.email, body.fullName,
                                        hash(body.password))
      ensures r.Ok? ==> users == old(users) + [r.value] && nextId > old(nextId)
    {
      var existing := FindUser(users, body.username);
      if existing.Some? {
        return Err(UsernameTaken);
      }
      var hashed := hash(body.password);
      var u := User(nextId, body.username, body.email, body.fullName, hashed);
      if dbDown || HasEmail(users, body.email) {
        return Err(SignupFailure(dbMessage));
      }
      users := users + [u];
      nextId := nextId + 1;
      r := Ok(u);
    }

    /** POST /auth/token, reading the table and changing nothing. */
    function LoginForAccessToken(username: string, password: string,
                                 hash: string -> string, mint: Claims -> string)
      : (r: Result<Token, HttpError>)
      reads this
      ensures r == Login(users, username, password, hash, mint)
      ensures r == Err(BadCredentials) || r == Ok(Token(mint(Claims(username)), BearerType))
    {
      Login(users, username, password, hash, mint)
    }
  }
}
