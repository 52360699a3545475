/**
 * The client's session (frontend/src/context/AuthContext.js): the in-memory token and
 * loading flag, changed by login, logout and the restore run once at mount, each
 * interleaved with a write to the credential store. Network answers are arguments.
 */
module AuthContext {
  import opened Wrappers
  import opened Storage
  import opened ApiClient

  /** Where the session stands, as the screens read it. */
  datatype Phase = Unknown | Authenticated | Anonymous

  /** What login or logout can throw: the request's failure or the store's. */
  datatype AuthError = RequestFailed(request: RequestError) | StoreFailed(store: StorageError)

  /** How a request body is encoded. */
  datatype Encoding = FormUrlEncoded | Json

  /** An outgoing POST: its path, the encoding of its body and the body's fields in order. */
  datatype Post = Post(path: string, encoding: Encoding, fields: seq<(string, string)>)

  /** The value of the first field named `name`, if any. */
  function Field(fields: seq<(string, string)>, name: string): (r: Option<string>)
    ensures r.Some? <==> exists i :: 0 <= i < |fields| && fields[i].0 == name
    ensures r.Some? ==> exists i :: 0 <= i < |fields| && fields[i] == (name, r.value)
  {
    if fields == [] then None
    else if fields[0].0 == name then Some(fields[0].1)
    else Field(fields[1..], name)
  }

  /** The token request: username and password, form-encoded, to the token endpoint. */
  function TokenRequest(username: string, password: string): Post
  {
    Post("/auth/token", FormUrlEncoded, [("username", username), ("password", password)])
  }

  /** The registration request: JSON, with `fullName` sent as `full_name`. */
  function SignupRequest(username: string, email: string, password: string,
                         fullName: string): Post
  {
    Post("/auth/signup", Json, [("username", username), ("email", email),
                                ("password", password), ("full_name", fullName)])
  }

  /** The server reads back exactly the credentials the token request carries. */
  lemma TokenRequestCarriesCredentials(username: string, password: string)
    ensures TokenRequest(username, password).encoding == FormUrlEncoded
    ensures Field(TokenRequest(username, password).fields, "username") == Some(username)
    ensures Field(TokenRequest(username, password).fields, "password") == Some(password)
  {
  }

  /** The registration request carries each argument under the server's field name. */
  lemma SignupRequestCarriesFields(username: string, email: string, password: string,
                                   fullName: string)
    ensures var f := SignupRequest(username, email, password, fullName).fields;
      && Field(f, "username") == Some(username) && Field(f, "email") == Some(email)
      && Field(f, "password") == Some(password) && Field(f, "full_name") == Some(fullName)
      && Field(f, "fullName") == None
  {
    var f := SignupRequest(username, email, password, fullName).fields;
    assert f[1..][1..] == [("password", password), ("full_name", fullName)];
    assert f[1..][1..][1..] == [("full_name", fullName)];
    assert Field(f[1..][1..], "full_name") == Some(fullName);
    assert Field(f[1..], "full_name") == Some(fullName);
  }

  class Session {
    /** The store the session writes; the request interceptor reads the same one. */
    const store: CredentialStore
    var userToken: Option<string>
    var isLoading: bool

    /** The state at mount: no token, still loading. */
    constructor (store: CredentialStore)
      ensures this.store == store && userToken == None && isLoading
    {
      this.store := store;
      userToken := None;
      isLoading := true;
    }

    /** Loading until the restore succeeds; then signed in exactly when the token is truthy. */
    function Phase(): (p: Phase)
      reads this
      ensures p == Unknown <==> isLoading
      ensures p == Authenticated <==> !isLoading && Truthy(userToken)
    {
      if isLoading then Unknown else if Truthy(userToken) then Authenticated else Anonymous
    }

    /**
     * login: send the token request. A failed request is rethrown with nothing changed.
     * On success the token is set in memory first and then persisted, so a store failure
     * (native only) is rethrown with the token already set.
     */
    method Login(username: string, password: string, response: Result<string, RequestError>,
                 storeFault: bool)
      returns (sent: Post, r: Result<(), AuthError>)
      modifies this`userToken, store`entries
      ensures sent == TokenRequest(username, password)
      ensures isLoading == old(isLoading)
      ensures response.Err? ==>
        r == Err(RequestFailed(response.error))
        && userToken == old(userToken) && store.entries == old(store.entries)
      ensures response.Ok? ==> userToken == Some(response.value)
      ensures response.Ok? && !storeFault ==>
        r.Ok? && store.entries == old(store.entries)[TokenKey := response.value]
      ensures response.Ok? && storeFault ==>
        store.entries == old(store.entries) && (r.Err? <==> !store.isWeb)
      ensures response.Ok? && storeFault && !store.isWeb ==> r == Err(StoreFailed(StorageFailure))
    {
      sent := TokenRequest(username, password);
      if response.Err? {
        return sent, Err(RequestFailed(response.error));
      }
      var accessToken := response.value;
      userToken := Some(accessToken);
      var saved := store.SetItem(TokenKey, accessToken, storeFault);
      if saved.Err? {
        return sent, Err(StoreFailed(saved.error));
      }
      r := Ok(());
    }

    /** signup: send the registration request and rethrow its failure; the session is untouched. */
    method Signup(username: string, email: string, password: string, fullName: string,
                  response: Result<(), RequestError>)
      returns (sent: Post, r: Result<(), RequestError>)
      ensures sent == SignupRequest(username, email, password, fullName)
      ensures r.Err? <==> response.Err?
      ensures r.Err? ==> r.error == response.error
    {
      sent := SignupRequest(username, email, password, fullName);
      r := response;
    }

    /** logout: clear the token in memory, then delete it from the store; no request is sent. */
    method Logout(storeFault: bool) returns (r: Result<(), StorageError>)
      modifies this`userToken, store`entries
      ensures userToken == None && isLoading == old(isLoading)
      ensures !storeFault ==> r.Ok? && store.entries == old(store.entries) - {TokenKey}
      ensures storeFault ==> store.entries == old(store.entries) && (r.Err? <==> !store.isWeb)
    {
      userToken := None;
      r := store.DeleteItem(TokenKey, storeFault);
    }

    /**
     * isLoggedIn, run once at mount: read the stored token (a web store that fails reads
     * as null) and stop loading. A native store that fails throws, the error is swallowed,
     * and the session stays loading. Nothing ever sets `isLoading` back to true.
     */
    method IsLoggedIn(storeFault: bool)
      modifies this`userToken, this`isLoading
      ensures isLoading ==> old(isLoading)
      ensures !storeFault ==> userToken == Lookup(store.entries, TokenKey) && !isLoading
      ensures storeFault && store.isWeb ==> userToken == None && !isLoading
      ensures storeFault && !store.isWeb ==>
        userToken == old(userToken) && isLoading == old(isLoading)
    {
      var stored := store.GetItem(TokenKey, storeFault);
      if stored.Ok? {
        userToken := stored.value;
        isLoading := false;
      }
    }
  }

  /**
   * Login then app restart: whatever the backing holds before, a login that succeeds
   * without a store fault is restored by the next session's read at mount.
   */
  method LoginThenRestart(isWeb: bool, existing: map<string, string>, username: string,
                          password: string, token: string)
    returns (restored: Option<string>)
    ensures restored == Some(token)
  {
    var store := new CredentialStore(isWeb, existing);
    var s := new Session(store);
    var sent, r := s.Login(username, password, Ok(token), false);
    var next := new Session(store);
    next.IsLoggedIn(false);
    restored := next.userToken;
  }

  /**
   * Logout then app restart: whatever the backing held and whatever the session held,
   * a logout without a store fault leaves the next session anonymous after its restore.
   */
  method LogoutThenRestart(isWeb: bool, existing: map<string, string>)
    returns (restored: Option<string>, phase: Phase)
    ensures restored == None && phase == Anonymous
  {
    var store := new CredentialStore(isWeb, existing);
    var s := new Session(store);
    s.IsLoggedIn(false);
    var out := s.Logout(false);
    var next := new Session(store);
    next.IsLoggedIn(false);
    restored, phase := next.userToken, next.Phase();
  }

  /**
   * The session's life over a store that starts empty: restore, login, an authorised
   * request, an app restart that restores the same token, logout and a bare request.
   */
  method SessionLifecycle(isWeb: bool)
  {
    var store := new CredentialStore(isWeb, map[]);
    var s := new Session(store);
    assert s.Phase() == Unknown;
    s.IsLoggedIn(false);
    assert s.Phase() == Anonymous;

    var sent, r := s.Login("alice", "pw", Ok("T1"), false);
    assert s.Phase() == Authenticated && Lookup(store.entries, TokenKey) == Some("T1");

    var req := new RequestConfig("GET", "/todos/", None, map[]);
    var sentReq := Intercept(req, store, false);
    assert req.headers[AuthorizationHeader] == "Bearer T1";

    var restarted := new Session(store);
    restarted.IsLoggedIn(false);
    assert restarted.userToken == Some("T1") && restarted.Phase() == Authenticated;

    var out := s.Logout(false);
    assert s.Phase() == Anonymous && Lookup(store.entries, TokenKey) == None;

    var bare := new RequestConfig("GET", "/todos/", None, map[]);
    var sentBare := Intercept(bare, store, false);
    assert AuthorizationHeader !in bare.headers;
  }
}
