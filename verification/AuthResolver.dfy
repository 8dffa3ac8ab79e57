/**
 * config/config.go, the resolver: what the auth config for a hostname is, without any cache.
 * Credential helpers are an arbitrary but deterministic function.
 */
module AuthResolver {
  import opened Results
  import Base64Auth

  datatype AuthConfig = AuthConfig(
    username: string, password: string, auth: string,
    serverAddress: string, identityToken: string, registryToken: string)

  datatype AuthError = CredentialsNotFound | DecodeError(cause: Base64Auth.AuthError) | OtherError(code: nat)

  type Answer = Result<AuthConfig, AuthError>

  /** credentialsFromHelper(helper, hostname); the empty helper name means the default one. */
  type Helper = (string, string) -> Answer

  datatype Config = Config(
    credentialHelpers: map<string, string>,
    credentialsStore: string,
    authConfigs: map<string, AuthConfig>)

  const INDEX_DOCKER_IO := "https://index.docker.io/v1/"

  /** config/auth/registry.go, ResolveRegistryHost: the names of Docker Hub become one. */
  function ResolveRegistryHost(host: string): string
  {
    if DockerHubAlias(host) then INDEX_DOCKER_IO else host
  }

  predicate DockerHubAlias(host: string)
  {
    host == "index.docker.io" || host == "docker.io" || host == INDEX_DOCKER_IO ||
    host == "registry-1.docker.io" || host == "index.docker.io/v1" || host == "index.docker.io/v1/"
  }

  /** processStoredAuthConfig. */
  function ProcessStored(stored: AuthConfig, helper: Helper, hostname: string): Answer
  {
    var authConfig := stored.(serverAddress := hostname);
    if authConfig.identityToken != "" then
      Ok(authConfig.(username := "", password := authConfig.identityToken))
    else if authConfig.username != "" && authConfig.password != "" then Ok(authConfig)
    else if authConfig.auth != "" then
      match Base64Auth.DecodeBase64Auth(authConfig.auth)
      case Err(e) => Err(DecodeError(e))
      case Ok((user, pass)) => Ok(authConfig.(username := user, password := pass))
    else helper("", hostname)
  }

  /** The answer holds a user or a password. */
  predicate Offers(a: Answer)
  {
    a.Ok? && (a.value.username != "" || a.value.password != "")
  }

  /** resolveAuthConfigForHostname. */
  function Resolve(c: Config, helper: Helper, host: string): Answer
  {
    var hostname := ResolveRegistryHost(host);
    if hostname in c.credentialHelpers then helper(c.credentialHelpers[hostname], hostname)
    else
      var fromStore := if c.credentialsStore != "" then helper(c.credentialsStore, hostname) else Err(CredentialsNotFound);
      if Offers(fromStore) then fromStore
      else if hostname in c.authConfigs then ProcessStored(c.authConfigs[hostname], helper, hostname)
      else helper("", hostname)
  }

  /** The hosts that stand for Docker Hub. */
  const DOCKER_HUB_NAMES: set<string> := {
    "index.docker.io", "docker.io", "https://index.docker.io/v1/",
    "registry-1.docker.io", "index.docker.io/v1", "index.docker.io/v1/"}

  /** Exactly these hosts are looked up under another name, and all of them under the same. */
  lemma HostsAreExact(host: string)
    ensures ResolveRegistryHost(host) == if host in DOCKER_HUB_NAMES then "https://index.docker.io/v1/" else host
  {
  }

  /** All names of Docker Hub have the same auth config. */
  lemma AliasesAgree(c: Config, helper: Helper, a: string, b: string)
    requires a in DOCKER_HUB_NAMES && b in DOCKER_HUB_NAMES
    ensures Resolve(c, helper, a) == Resolve(c, helper, b)
  {
    HostsAreExact(a);
    HostsAreExact(b);
  }

  // ---------- Which source decides ----------

  /** Where an answer can come from, in the order in which they count. */
  datatype Source = RegistryHelper | CredentialsStore | IdentityToken | StoredNames | StoredAuth | DefaultHelper

  function Rank(s: Source): nat
  {
    match s
    case RegistryHelper => 0
    case CredentialsStore => 1
    case IdentityToken => 2
    case StoredNames => 3
    case StoredAuth => 4
    case DefaultHelper => 5
  }

  /** Whether a source has something to say about a registry, whatever the others have. */
  predicate Available(s: Source, c: Config, helper: Helper, h: string)
  {
    match s
    case RegistryHelper => h in c.credentialHelpers
    case CredentialsStore =>
      var a := helper(c.credentialsStore, h);
      c.credentialsStore != "" && a.Ok? && (a.value.username != "" || a.value.password != "")
    case IdentityToken => h in c.authConfigs && c.authConfigs[h].identityToken != ""
    case StoredNames => h in c.authConfigs && c.authConfigs[h].username != "" && c.authConfigs[h].password != ""
    case StoredAuth => h in c.authConfigs && c.authConfigs[h].auth != ""
    case DefaultHelper => true
  }

  /** What it says, when asked on its own. */
  function Says(s: Source, c: Config, helper: Helper, h: string): Answer
    requires Available(s, c, helper, h)
  {
    match s
    case RegistryHelper => helper(c.credentialHelpers[h], h)
    case CredentialsStore => helper(c.credentialsStore, h)
    case IdentityToken => Ok(c.authConfigs[h].(username := "", password := c.authConfigs[h].identityToken, serverAddress := h))
    case StoredNames => Ok(c.authConfigs[h].(serverAddress := h))
    case StoredAuth =>
      (match Base64Auth.DecodeBase64Auth(c.authConfigs[h].auth)
       case Err(e) => Err(DecodeError(e))
       case Ok((user, pass)) => Ok(c.authConfigs[h].(username := user, password := pass, serverAddress := h)))
    case DefaultHelper => helper("", h)
  }

  /** The source is available and none before it is. */
  predicate Decides(s: Source, c: Config, helper: Helper, h: string)
  {
    Available(s, c, helper, h) && forall s' :: Available(s', c, helper, h) ==> Rank(s) <= Rank(s')
  }

  /**
   * For every config and every registry exactly one source decides, and the answer is what that
   * source says on its own.
   */
  lemma OneSourceDecides(c: Config, helper: Helper, host: string) returns (s: Source)
    ensures var h := ResolveRegistryHost(host);
      && Decides(s, c, helper, h) && (forall s' :: Decides(s', c, helper, h) ==> s' == s)
      && Resolve(c, helper, host) == Says(s, c, helper, h)
  {
    var h := ResolveRegistryHost(host);
    s := if Available(RegistryHelper, c, helper, h) then RegistryHelper
         else if Available(CredentialsStore, c, helper, h) then CredentialsStore
         else if Available(IdentityToken, c, helper, h) then IdentityToken
         else if Available(StoredNames, c, helper, h) then StoredNames
         else if Available(StoredAuth, c, helper, h) then StoredAuth
         else DefaultHelper;
    forall s'
      ensures Available(s', c, helper, h) ==> Rank(s) <= Rank(s')
    {
      match s'
      case RegistryHelper =>
      case CredentialsStore =>
      case IdentityToken =>
      case StoredNames =>
      case StoredAuth =>
      case DefaultHelper =>
    }
    forall s' | Decides(s', c, helper, h)
      ensures s' == s
    {
      assert Rank(s') <= Rank(s);
    }
  }

  /** What other sources would say does not matter: the answer depends on the one that decides alone. */
  lemma OnlyTheDecidingSourceCounts(s: Source, c: Config, helper: Helper, c': Config, helper': Helper, host: string)
    requires var h := ResolveRegistryHost(host);
      && Decides(s, c, helper, h) && Decides(s, c', helper', h)
      && Says(s, c, helper, h) == Says(s, c', helper', h)
    ensures Resolve(c, helper, host) == Resolve(c', helper', host)
  {
    var _ := OneSourceDecides(c, helper, host);
    var _ := OneSourceDecides(c', helper', host);
  }

  /**
   * Wherever a stored `auth` field decides and holds `user:password` in base64, the answer is that
   * user and password exactly when the user has no colon.
   */
  lemma StoredAuthRoundTrip(c: Config, helper: Helper, host: string, user: string, pass: string)
    requires Base64Auth.IsBytes(user) && Base64Auth.IsBytes(pass)
    requires var h := ResolveRegistryHost(host);
      Decides(StoredAuth, c, helper, h) && c.authConfigs[h].auth == Base64Auth.Encode(user + ":" + pass)
    ensures var r := Resolve(c, helper, host);
      (r.Ok? && r.value.username == user && r.value.password == pass) <==> ':' !in user
  {
    var h := ResolveRegistryHost(host);
    Base64Auth.AuthRoundTripIsExact(user, pass);
    var s := OneSourceDecides(c, helper, host);
    assert s == StoredAuth;
  }
}
