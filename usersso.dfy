/** The deterministic parts of package `user_sso` (client.go): deriving the
    OAuth2 and user-service URLs from the configured endpoint, the logout
    URL, the lazily allocated metadata map of `UserInfo`, and the input
    guard and response-code check of batch authorization. */
module UserSso {
  import opened Prelude

  // ---------------------------------------------------------------------
  // Endpoint trimming

  /** `strings.TrimRight(s, cutset)`: drops every trailing character that
      occurs in `cutset`, treating `cutset` as a set of characters. */
  function TrimRight(s: string, cutset: string): (r: string)
    ensures IsCutsetTrim(s, cutset, r)
    decreases |s|
  {
    if |s| > 0 && s[|s| - 1] in cutset then TrimRight(s[..|s| - 1], cutset) else s
  }

  /** `r` is `s` with its longest suffix of cutset characters removed: a
      prefix of `s`, everything after it in the cutset, and its own last
      character (if any) outside the cutset. */
  predicate IsCutsetTrim(s: string, cutset: string, r: string) {
    && |r| <= |s| && r == s[..|r|]
    && (forall i :: |r| <= i < |s| ==> s[i] in cutset)
    && (|r| == 0 || r[|r| - 1] !in cutset)
  }

  /** The three conditions pin the result down: there is only one such string. */
  lemma CutsetTrimUnique(s: string, cutset: string, r1: string, r2: string)
    requires IsCutsetTrim(s, cutset, r1) && IsCutsetTrim(s, cutset, r2)
    ensures r1 == r2
  {
  }

  /** Trimming twice changes nothing more. */
  lemma TrimRightIdempotent(s: string, cutset: string)
    ensures TrimRight(TrimRight(s, cutset), cutset) == TrimRight(s, cutset)
  {
    var r := TrimRight(s, cutset);
    assert IsCutsetTrim(r, cutset, r);
    CutsetTrimUnique(r, cutset, TrimRight(r, cutset), r);
  }

  /** The cutset `NewClient` trims from the endpoint. */
  const EndpointCutset: string := "/?"

  const AuthorizePath: string := "/oauth/authorize"
  const TokenPath: string := "/oauth/token"
  const UserInfoPath: string := "/oauth/user"
  const LogoutPath: string := "/user/logout"
  const AccessPath: string := "/user/access"

  // ---------------------------------------------------------------------
  // Client construction

  /** `Config`: what the caller supplies. */
  datatype Config = Config(
    endpoint: string,
    clientId: string,
    clientSecret: string,
    redirectUrl: string,
    scopes: seq<string>)

  /** `oauth2.AuthStyle`. */
  datatype AuthStyle = AuthStyleAutoDetect | AuthStyleInParams | AuthStyleInHeader

  /** `oauth2.Endpoint`. */
  datatype Endpoint = Endpoint(authUrl: string, tokenUrl: string, authStyle: AuthStyle)

  /** The fields of `oauth2.Config` that `NewClient` sets. */
  datatype OAuth2Config = OAuth2Config(
    clientId: string,
    clientSecret: string,
    endpoint: Endpoint,
    redirectUrl: string,
    scopes: seq<string>)

  /** `Client`: never changed after `NewClient` builds it. */
  datatype Client = Client(
    userInfoEndpoint: string,
    logoutEndpoint: string,
    accessEndpoint: string,
    oauth2: OAuth2Config)

  /** `url` is `base` followed by `path`, where `base` is the endpoint with
      every trailing `/` and `?` removed. */
  predicate DerivedFrom(endpoint: string, url: string, path: string) {
    && |path| <= |url|
    && url[|url| - |path|..] == path
    && IsCutsetTrim(endpoint, EndpointCutset, url[..|url| - |path|])
  }

  /** `NewClient`: every URL is the trimmed endpoint followed by its fixed
      path, and the OAuth2 credentials are passed through unchanged, with
      the client credentials sent in the request parameters. */
  function NewClient(conf: Config): (c: Client)
    ensures DerivedFrom(conf.endpoint, c.oauth2.endpoint.authUrl, AuthorizePath)
    ensures DerivedFrom(conf.endpoint, c.oauth2.endpoint.tokenUrl, TokenPath)
    ensures DerivedFrom(conf.endpoint, c.userInfoEndpoint, UserInfoPath)
    ensures DerivedFrom(conf.endpoint, c.logoutEndpoint, LogoutPath)
    ensures DerivedFrom(conf.endpoint, c.accessEndpoint, AccessPath)
    ensures c.oauth2.endpoint.authStyle == AuthStyleInParams
    ensures c.oauth2.clientId == conf.clientId && c.oauth2.clientSecret == conf.clientSecret
    ensures c.oauth2.redirectUrl == conf.redirectUrl && c.oauth2.scopes == conf.scopes
  {
    var endpoint := TrimRight(conf.endpoint, EndpointCutset);
    var c := Client(
      endpoint + UserInfoPath,
      endpoint + LogoutPath,
      endpoint + AccessPath,
      OAuth2Config(
        conf.clientId,
        conf.clientSecret,
        Endpoint(endpoint + AuthorizePath, endpoint + TokenPath, AuthStyleInParams),
        conf.redirectUrl,
        conf.scopes));
    assert (endpoint + AuthorizePath)[..|endpoint|] == endpoint;
    assert (endpoint + TokenPath)[..|endpoint|] == endpoint;
    assert (endpoint + UserInfoPath)[..|endpoint|] == endpoint;
    assert (endpoint + LogoutPath)[..|endpoint|] == endpoint;
    assert (endpoint + AccessPath)[..|endpoint|] == endpoint;
    c
  }

  /** Endpoints that differ only in trailing `/` and `?` characters give
      the same client. */
  lemma NewClientIgnoresTrailingCutset(conf: Config, extra: string)
    requires forall i :: 0 <= i < |extra| ==> extra[i] in EndpointCutset
    ensures NewClient(conf.(endpoint := conf.endpoint + extra)) == NewClient(conf)
  {
    var s := conf.endpoint + extra;
    var r := TrimRight(conf.endpoint, EndpointCutset);
    assert s[..|conf.endpoint|] == conf.endpoint;
    assert IsCutsetTrim(s, EndpointCutset, r) by {
      forall i | |r| <= i < |s| ensures s[i] in EndpointCutset {
        if i >= |conf.endpoint| { assert s[i] == extra[i - |conf.endpoint|]; }
      }
    }
    CutsetTrimUnique(s, EndpointCutset, TrimRight(s, EndpointCutset), r);
  }

  /** `LogoutUrl`. With no return URL it is the logout endpoint itself;
      otherwise the endpoint followed by the `return_url` query parameter,
      its value escaped by `queryEscape` (`url.QueryEscape`). */
  function LogoutUrl(c: Client, returnUrl: string, queryEscape: string -> string): (r: string)
    ensures |r| >= |c.logoutEndpoint| && r[..|c.logoutEndpoint|] == c.logoutEndpoint
    ensures r == c.logoutEndpoint <==> returnUrl == ""
    ensures returnUrl != "" ==> r[|c.logoutEndpoint|..] == "?return_url=" + queryEscape(returnUrl)
  {
    if returnUrl == "" then c.logoutEndpoint
    else
      var r := c.logoutEndpoint + "?return_url=" + queryEscape(returnUrl);
      assert r[..|c.logoutEndpoint|] == c.logoutEndpoint;
      r
  }

  // ---------------------------------------------------------------------
  // User metadata

  /** The map a nil metadata field is replaced by before use. */
  function Allocated(m: Nullable<map<string, string>>): map<string, string> {
    if m.Nil? then map[] else m.value
  }

  /** Go's map index: the zero value "" for an absent key or a nil map. */
  function Lookup(m: Nullable<map<string, string>>, key: string): string {
    if m.NonNil? && key in m.value then m.value[key] else ""
  }

  /** The metadata map after storing `val` under `key`: `key` now maps to
      `val` and every other key keeps what it had. */
  function Stored(m: Nullable<map<string, string>>, key: string, val: string): (r: map<string, string>)
    ensures Lookup(NonNil(r), key) == val
    ensures forall k :: k != key ==> Lookup(NonNil(r), k) == Lookup(m, k)
    ensures r.Keys == Allocated(m).Keys + {key}
  {
    Allocated(m)[key := val]
  }

  /** `UserInfo`. The OAuth2 token it also carries is not part of this model. */
  class UserInfo {
    var name: string
    var email: string
    var avatar: string
    var metadata: Nullable<map<string, string>>

    /** A fresh record; like a Go zero value its metadata map is nil. */
    constructor (name: string, email: string, avatar: string)
      ensures this.name == name && this.email == email && this.avatar == avatar
      ensures metadata == Nil
    {
      this.name := name;
      this.email := email;
      this.avatar := avatar;
      metadata := Nil;
    }

    /** `Get`: allocates the map if it is nil, then reads it; an absent key
        reads as "". */
    method Get(key: string) returns (val: string)
      modifies this`metadata
      ensures metadata == NonNil(Allocated(old(metadata)))
      ensures val == Lookup(old(metadata), key)
      ensures old(metadata).Nil? ==> metadata == NonNil(map[]) && val == ""
    {
      if metadata.Nil? {
        metadata := NonNil(map[]);
      }
      val := if key in metadata.value then metadata.value[key] else "";
    }

    /** `Set`: allocates the map if it is nil, then writes `val` under `key`. */
    method Set(key: string, val: string)
      modifies this`metadata
      ensures metadata == NonNil(Stored(old(metadata), key, val))
    {
      if metadata.Nil? {
        metadata := NonNil(map[]);
      }
      metadata := NonNil(metadata.value[key := val]);
    }
  }

  /** `Get` right after `Set` returns what was set, and leaves the map
      non-nil and otherwise as `Set` left it. */
  method SetThenGet(u: UserInfo, key: string, val: string) returns (got: string)
    modifies u`metadata
    ensures got == val
    ensures u.metadata.NonNil? && forall k :: k != key ==> Lookup(u.metadata, k) == Lookup(old(u.metadata), k)
  {
    u.Set(key, val);
    got := u.Get(key);
  }

  // ---------------------------------------------------------------------
  // Batch authorization

  /** `AccessItem`: one resource/action pair and whether it is allowed. */
  datatype AccessItem = AccessItem(resource: string, action: string, ok: bool)

  /** `AccessResponse`: the decoded body of the authorization reply. */
  datatype AccessResponse = AccessResponse(code: int, msg: string, data: seq<AccessItem>)

  /** The code of a successful authorization reply. */
  const AccessOk: int := 200

  /** The errors `Authentication` returns. */
  datatype AuthError =
    | NoAccessItems                       // ErrorNilAccessItems, "no access items"
    | RequestFailed                       // ErrorRequestFailed, "access request failed"
    | AccessFailed(code: int, msg: string) // "access failed:status=%d,message=%s"
    | Io(msg: string)                     // marshalling, transport and body errors

  /** `Authentication`. The request itself (marshalling the items, the POST
      to `url` with the access token as `Authorization` header, the HTTP
      status check and the decoding of the body) is the `exchange`
      parameter. An empty item list is rejected before any request is made;
      a decoded reply yields its data only when its code is 200. */
  function Authentication(
    c: Client, accessToken: string, items: seq<AccessItem>,
    exchange: (string, string, seq<AccessItem>) -> Result<AccessResponse, AuthError>)
    : (r: Result<seq<AccessItem>, AuthError>)
    ensures |items| == 0 ==> r == Err(NoAccessItems)
    ensures |items| > 0 ==>
      match exchange(c.accessEndpoint, accessToken, items)
      case Err(e) => r == Err(e)
      case Ok(resp) => (r.Ok? <==> resp.code == AccessOk)
                       && (r.Ok? ==> r.value == resp.data)
                       && (r.Err? ==> r.error == AccessFailed(resp.code, resp.msg))
  {
    if |items| == 0 then Err(NoAccessItems)
    else
      match exchange(c.accessEndpoint, accessToken, items)
      case Err(e) => Err(e)
      case Ok(resp) =>
        if resp.code != AccessOk then Err(AccessFailed(resp.code, resp.msg))
        else Ok(resp.data)
  }

  /** The request goes to the client's access endpoint: two exchanges that
      agree there give the same outcome, and with no items neither is used. */
  lemma AuthenticationUsesAccessEndpoint(
    c: Client, accessToken: string, items: seq<AccessItem>,
    e1: (string, string, seq<AccessItem>) -> Result<AccessResponse, AuthError>,
    e2: (string, string, seq<AccessItem>) -> Result<AccessResponse, AuthError>)
    requires |items| == 0 || e1(c.accessEndpoint, accessToken, items) == e2(c.accessEndpoint, accessToken, items)
    ensures Authentication(c, accessToken, items, e1) == Authentication(c, accessToken, items, e2)
  {
  }
}
