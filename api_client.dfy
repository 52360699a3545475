/**
 * The request interceptor of the client's HTTP instance (frontend/src/api/client.js).
 * Before every request it reads the stored token afresh and, when the token is truthy,
 * sets the request's Authorization header to the bearer credentials of section 2.1 of
 * RFC 6750; otherwise the request goes out as it was.
 */
module ApiClient {
  import opened Wrappers
  import opened Storage

  const AuthorizationHeader: string := "Authorization"

  /** The auth-scheme and the single space that precede the token. */
  const BearerPrefix: string := "Bearer "

  /** How a rejected request reaches its caller: the answer's `detail`, if any, and the message. */
  datatype RequestError = RequestError(detail: Option<string>, message: Option<string>)

  /** JavaScript truthiness of a stored token: present and not the empty string. */
  predicate Truthy(token: Option<string>)
  {
    token.Some? && token.value != ""
  }

  /** The Authorization value for `token`. */
  function BearerCredentials(token: string): string
  {
    BearerPrefix + token
  }

  /** Reads the token back out of an Authorization value, if it uses the Bearer scheme. */
  function ParseBearer(value: string): (r: Option<string>)
    ensures r.Some? ==> BearerCredentials(r.value) == value
  {
    if |value| >= |BearerPrefix| && value[..|BearerPrefix|] == BearerPrefix
    then Some(value[|BearerPrefix|..])
    else None
  }

  /** Bearer credentials carry the token unaltered: parsing them gives it back. */
  lemma ParseBearerRoundTrip(token: string)
    ensures ParseBearer(BearerCredentials(token)) == Some(token)
  {
    var v := BearerCredentials(token);
    assert v[..|BearerPrefix|] == BearerPrefix;
    assert v[|BearerPrefix|..] == token;
  }

  /** The headers after the interceptor, given the token it read. */
  function WithToken(headers: map<string, string>, token: Option<string>): (h: map<string, string>)
    ensures Truthy(token) ==> AuthorizationHeader in h
                              && ParseBearer(h[AuthorizationHeader]) == Some(token.value)
    ensures !Truthy(token) ==> h == headers
    ensures forall k :: k != AuthorizationHeader ==> (k in h <==> k in headers)
    ensures forall k :: k in h && k != AuthorizationHeader ==> h[k] == headers[k]
  {
    if Truthy(token) then
      ParseBearerRoundTrip(token.value);
      headers[AuthorizationHeader := BearerCredentials(token.value)]
    else headers
  }

  /** An outgoing request; the interceptor may write only its headers. */
  class RequestConfig {
    const verb: string
    const url: string
    const data: Option<string>
    var headers: map<string, string>

    constructor (verb: string, url: string, data: Option<string>, headers: map<string, string>)
      ensures this.verb == verb && this.url == url && this.data == data
      ensures this.headers == headers
    {
      this.verb := verb;
      this.url := url;
      this.data := data;
      this.headers := headers;
    }
  }

  /**
   * The request hook: read the token from `store` now (no copy is kept between requests)
   * and attach it. A native store that fails rejects the request with headers untouched;
   * a web store that fails reads as null, so the request goes out without the header.
   */
  method Intercept(config: RequestConfig, store: CredentialStore, fault: bool)
    returns (r: Result<RequestConfig, StorageError>)
    modifies config`headers
    ensures r.Ok? ==> r.value == config
    ensures r.Err? <==> fault && !store.isWeb
    ensures r.Err? ==> config.headers == old(config.headers)
    ensures r.Ok? && !fault ==>
      config.headers == WithToken(old(config.headers), Lookup(store.entries, TokenKey))
    ensures r.Ok? && fault ==> config.headers == old(config.headers)
  {
    var token := store.GetItem(TokenKey, fault);
    if token.Err? {
      return Err(token.error);
    }
    if Truthy(token.value) {
      config.headers := config.headers[AuthorizationHeader := BearerCredentials(token.value.value)];
    }
    r := Ok(config);
  }

  /** The error hook: a request error is passed on as a rejection, unchanged. */
  function OnRequestError<T>(e: RequestError): (r: Result<T, RequestError>)
    ensures r.Err? && r.error == e
  {
    Err(e)
  }
}
