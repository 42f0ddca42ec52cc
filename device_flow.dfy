/** Signing in and staying signed in (`internal/auth/device_flow.go`): the
    device authorization grant of RFC 8628 run by `Authenticate`, and
    `TokenSource`, which hands out the held token while it is valid and
    refreshes it once when it is not. The OAuth 2 library's requests (the
    device authorization request, the polling of section 3.5 of RFC 8628,
    the refresh request of section 6 of RFC 6749) are functions passed in. */
module DeviceFlow {
  import opened Wrappers
  import opened Chrono
  import Tokens
  import Cache

  /** `microsoft.AzureADEndpoint(tenant)`: the tenant's authorization and
      token URLs. */
  datatype Endpoint = AzureAD(tenant: string)

  /** `oauth2.Config`. */
  datatype OAuthConfig = OAuthConfig(clientID: string, scopes: seq<string>, endpoint: Endpoint)

  /** `DeviceCodeAuthenticator`. */
  datatype Authenticator = Authenticator(clientID: string, tenantID: string, scopes: seq<string>)

  /** `NewDeviceCodeAuthenticator`. */
  function NewDeviceCodeAuthenticator(clientID: string, tenantID: string): Authenticator {
    Authenticator(clientID, tenantID, ["Calendars.Read", "offline_access"])
  }

  /** The configuration `NewTokenSource` builds. */
  function TokenSourceConfig(clientID: string, tenantID: string): OAuthConfig {
    OAuthConfig(clientID, ["Calendars.Read", "offline_access"], AzureAD(tenantID))
  }

  /** Both constructors ask for the same two scopes: reading calendars,
      and `offline_access`, without which no refresh token is issued. */
  lemma ScopesAgree(clientID: string, tenantID: string)
    ensures NewDeviceCodeAuthenticator(clientID, tenantID).scopes == TokenSourceConfig(clientID, tenantID).scopes
    ensures var scopes := TokenSourceConfig(clientID, tenantID).scopes;
      |scopes| == 2 && "Calendars.Read" in scopes && "offline_access" in scopes
  {
  }

  /** What the device authorization response shows the user. */
  datatype DeviceCode = DeviceCode(userCode: string, verificationURI: string)

  /** Why `Authenticate` fails. */
  datatype AuthError = DeviceAuthFailed(reason: string) | PollFailed(reason: string)

  /** The configuration `Authenticate` sends its requests with. */
  function AuthenticatorConfig(a: Authenticator): OAuthConfig {
    OAuthConfig(a.clientID, a.scopes, AzureAD(a.tenantID))
  }

  /** `Authenticate`: requests a device code, then polls for the token; a
      failure of either step is an error and gives no token. */
  function Authenticate(a: Authenticator,
                        deviceAuth: OAuthConfig -> Result<DeviceCode, string>,
                        poll: (OAuthConfig, DeviceCode) -> Result<Tokens.Token, string>): (r: Result<Tokens.Token, AuthError>)
    ensures deviceAuth(AuthenticatorConfig(a)).Err? ==> r == Err(DeviceAuthFailed(deviceAuth(AuthenticatorConfig(a)).error))
    ensures deviceAuth(AuthenticatorConfig(a)).Ok? ==>
      var code := deviceAuth(AuthenticatorConfig(a)).value;
      (r.Ok? <==> poll(AuthenticatorConfig(a), code).Ok?)
      && (r.Ok? ==> r.value == poll(AuthenticatorConfig(a), code).value)
      && (r.Err? ==> r == Err(PollFailed(poll(AuthenticatorConfig(a), code).error)))
  {
    var config := AuthenticatorConfig(a);
    match deviceAuth(config)
    case Err(e) => Err(DeviceAuthFailed(e))
    case Ok(code) =>
      match poll(config, code)
      case Err(e) => Err(PollFailed(e))
      case Ok(token) => Ok(token)
  }

  /** "failed to refresh token". */
  datatype RefreshError = RefreshFailed(reason: string)

  /** What `TokenSource.Token` returns for the held token `t` at `now`. */
  function TokenResult(t: Tokens.Token, now: Time, config: OAuthConfig,
                       refresh: (OAuthConfig, Tokens.Token) -> Result<Tokens.Token, string>): Result<Tokens.Token, RefreshError> {
    if Tokens.Valid(t, now) then Ok(t)
    else
      match refresh(config, t)
      case Err(e) => Err(RefreshFailed(e))
      case Ok(n) => Ok(n)
  }

  /** A valid token is handed out as it is; an expired one only through a
      refresh, whose failure is the error; a token never comes back
      without an access token unless the refresh produced it. */
  lemma TokenResultOutcomes(t: Tokens.Token, now: Time, config: OAuthConfig,
                            refresh: (OAuthConfig, Tokens.Token) -> Result<Tokens.Token, string>)
    ensures Tokens.Valid(t, now) ==> TokenResult(t, now, config, refresh) == Ok(t)
    ensures !Tokens.Valid(t, now) ==>
      (TokenResult(t, now, config, refresh).Ok? <==> refresh(config, t).Ok?)
    ensures !Tokens.Valid(t, now) && refresh(config, t).Ok? ==>
      TokenResult(t, now, config, refresh).value == refresh(config, t).value
    ensures !IsZero(t.expiry) && Before(t.expiry, now) ==>
      TokenResult(t, now, config, refresh) == (match refresh(config, t)
                                               case Err(e) => Err(RefreshFailed(e))
                                               case Ok(n) => Ok(n))
  {
    Tokens.ExpiredIsInvalid(t, now);
  }

  class TokenSource {
    var token: Tokens.Token
    const config: OAuthConfig
    const cache: Cache.TokenCache?

    /** `NewTokenSource`. */
    constructor (token: Tokens.Token, clientID: string, tenantID: string, cache: Cache.TokenCache?)
      ensures this.token == token && config == TokenSourceConfig(clientID, tenantID) && this.cache == cache
    {
      this.token := token;
      this.config := TokenSourceConfig(clientID, tenantID);
      this.cache := cache;
    }

    /** The objects `Token` may change: itself and the cache's file system. */
    function Footprint(): set<object>
      reads this
    {
      if cache == null then {this} else {this, cache.store}
    }

    /** `Token`: the held token while it is valid at `now`; otherwise one
        refresh, whose token replaces the held one and is saved to the
        cache if there is one. A refresh that fails changes nothing, and a
        save that fails does not fail the call. */
    method Token(now: Time, refresh: (OAuthConfig, Tokens.Token) -> Result<Tokens.Token, string>)
        returns (r: Result<Tokens.Token, RefreshError>)
      modifies Footprint()
      ensures r == TokenResult(old(token), now, config, refresh)
      ensures token == (if r.Ok? then r.value else old(token))
      ensures cache != null ==>
        && cache.store.files == (if !Tokens.Valid(old(token), now) && r.Ok?
                                 then Cache.SavedFiles(old(cache.store.files), old(cache.store.unwritable), cache.filePath, r.value)
                                 else old(cache.store.files))
        && cache.store.unreadable == old(cache.store.unreadable)
        && cache.store.unwritable == old(cache.store.unwritable)
    {
      if Tokens.Valid(token, now) {
        return Ok(token);
      }
      var renewed := refresh(config, token);
      if renewed.Err? {
        return Err(RefreshFailed(renewed.error));
      }
      token := renewed.value;
      if cache != null {
        var _ := cache.Save(renewed.value);
      }
      return Ok(renewed.value);
    }
  }
}
