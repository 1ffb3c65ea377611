/**
  The exposure template (_exposure.tpl) as a partial function from values to typed manifests, with
  the nesting of its conditionals as written.
 */
module Exposure {
  import opened Wrappers
  import opened Text
  import opened Values

  datatype SessionStore = Url(url: string) | Cluster(host: string, fqdn: string)

  /** The fields of oauth2-proxy's configuration that depend on the values. */
  datatype ProxyCfg = ProxyCfg(
    issuer: string, redirectUrl: string, proxyPrefix: string, expire: string, refresh: string,
    scope: string, setAuthorizationHeader: bool, store: SessionStore)

  datatype JwtRule = JwtRule(
    providers: seq<string>, issuer: string, jwksUri: string, extractFrom: string, ruleProvider: string,
    groups: seq<string>)

  datatype Manifest =
    | OIDCApp(name: string, appName: string, redirectUri: string, secret: string)
    | ValkeyCluster(name: string)
    | Password(name: string)
    | ExternalSecret(name: string, target: string, generator: string)
    | Service(name: string)
    | Deployment(name: string, oidcSecret: string, cookieSecret: string, configMap: string)
    | ConfigMap(name: string, cfg: ProxyCfg)
    | HTTPRoute(name: string, parent: Gateway, hostname: string, pathType: string, path: string,
                backend: string, port: int)
    | SecurityPolicy(name: string, target: string, extAuth: string, headers: seq<string>, jwt: Option<JwtRule>)
    | NetworkPolicy(name: string)

  datatype RenderError =
    | BadName | NoHostname | NoIssuer | NoGateway | NoGroups(route: string)
    | NoProject | NoPersistenceSize | ScopesOmitOfflineAccess | NoImage | NoExistingSecret
    | IncompleteGateway | UnnamedRoute | NoBackend(route: string) | IncompleteBackend(route: string)

  // ----- Shared pieces -----------------------------------------------------------------------------

  /** The path prefix of the rendered documents; the proxy's configuration defaults its own. */
  function Prefix(v: Values): string {
    Default(v.proxyPrefix, "/oauth2")
  }

  const APP_ROUTE := Route("app", "/", "", true, false, "", Backend(None, None))

  function Routes(v: Values): seq<Route> {
    if v.routes == [] then [APP_ROUTE] else v.routes
  }

  /** Sprig's `contains`. */
  predicate Contains(needle: string, s: string) {
    exists i | 0 <= i <= |s| :: OccursAt(needle, s, i)
  }

  const OFFLINE_ACCESS := "offline_access"

  function ExtendedScope(base: string, groups: bool, refresh: bool): string {
    var scope := if groups then base + " groups" else base;
    if refresh then scope + " " + OFFLINE_ACCESS else scope
  }

  function DefaultScope(v: Values): string {
    ExtendedScope("openid profile email", v.groups != [], v.sessionRefresh != "")
  }

  function Cfg(v: Values): Result<ProxyCfg, RenderError> {
    var prefix := if v.proxyPrefix == "" then "/oauth2" else v.proxyPrefix;
    var scope := Default(v.identity.scopes, DefaultScope(v));
    :- Need(v.identity.scopes == "" || v.sessionRefresh == "" || Contains(OFFLINE_ACCESS, v.identity.scopes),
            ScopesOmitOfflineAccess);
    Success(ProxyCfg(
      v.issuer, "https://" + v.hostname + prefix + "/callback", prefix,
      Default(v.sessionExpire, "11h"), v.sessionRefresh, scope, v.passAuthorizationHeader,
      if v.sessionStoreUrl != "" then Url(v.sessionStoreUrl)
      else Cluster(ValkeyHost(BaseName(v)),
                   "redis://" + ValkeyHost(BaseName(v)) + "." + v.releaseNamespace + ".svc."
                   + Default(v.dnsDomain, "cluster.local") + ":6379")))
  }

  // ----- The install's own documents -----------------------------------------------------------------

  function OidcDocs(v: Values): Result<seq<Manifest>, RenderError> {
    if v.identity.Static() then Success([])
    else
      :- Need((if v.identity.projectCluster then v.identity.projectId else v.identity.projectRef) != "", NoProject);
      Success([OIDCApp(
        BaseName(v) + "-oidc", Default(v.identity.appName, Dashed(BaseName(v), v.clusterName)),
        "https://" + v.hostname + Prefix(v) + "/callback", OidcSecretName(v))])
  }

  /** The Password generator is rendered with the session store, not with the cookie Secret. */
  function StoreDocs(v: Values): Result<seq<Manifest>, RenderError> {
    if v.sessionStoreUrl != "" then Success([])
    else
      :- Need(!v.persistence || v.persistenceSize != "", NoPersistenceSize);
      Success([ValkeyCluster(ValkeyName(BaseName(v))), Password(CookieName(v))])
  }

  function CookieDocs(v: Values): seq<Manifest> {
    if v.cookieSecret != "" then []
    else [ExternalSecret(CookieName(v), CookieName(v), CookieName(v))]
  }

  function ProxyDocs(v: Values): Result<seq<Manifest>, RenderError> {
    var proxy := ProxyName(BaseName(v));
    var cfg :- Cfg(v);
    :- Need(v.imageRepository != "" && v.imageTag != "", NoImage);
    :- Need(OidcSecretName(v) != "", NoExistingSecret);
    Success([
      Service(proxy),
      Deployment(proxy, OidcSecretName(v), CookieName(v), proxy),
      ConfigMap(proxy, cfg)])
  }

  const PROXY_ROUTE := "proxy"

  function ProxyRoute(v: Values): Manifest
    requires v.gateway.Some?
  {
    HTTPRoute(Dashed(BaseName(v), PROXY_ROUTE), v.gateway.value, v.hostname,
              "PathPrefix", Prefix(v) + "/", ProxyName(BaseName(v)), 4180)
  }

  // ----- One entry of exposure.routes ------------------------------------------------------------------

  function OwnRouteDocs(v: Values, r: Route): Result<seq<Manifest>, RenderError>
    requires v.gateway.Some?
  {
    var backend := if r.backend.Empty() then v.backend else r.backend;
    :- Need(!backend.Empty(), NoBackend(r.name));
    :- Need(backend.name.Some? && backend.name.value != "" && backend.port.Some?, IncompleteBackend(r.name));
    Success([HTTPRoute(
      Dashed(BaseName(v), r.name), v.gateway.value, v.hostname,
      Default(r.pathType, "PathPrefix"), Default(r.path, "/"), backend.name.value, backend.port.value)])
  }

  /** The HTTPRoute a protected entry's policy is bound to. */
  function Target(v: Values, r: Route): string {
    if r.Attached() then r.targetRouteName else Dashed(BaseName(v), r.name)
  }

  function Jwt(v: Values): JwtRule {
    JwtRule([JwtProviderName(v)], v.issuer, Default(v.identity.jwksUri, v.issuer + "/oauth/v2/keys"),
            "X-Auth-Request-Access-Token", JwtProviderName(v), v.groups)
  }

  function Policy(v: Values, r: Route): Manifest {
    SecurityPolicy(
      Dashed(BaseName(v), r.name), Target(v, r), ProxyName(BaseName(v)),
      ["x-auth-request-access-token", "x-auth-request-user", "x-auth-request-email", "x-auth-request-groups"]
      + (if v.passAuthorizationHeader then ["authorization"] else []),
      if r.authenticatedOnly then None else Some(Jwt(v)))
  }

  function RouteDocs(v: Values, r: Route): Result<seq<Manifest>, RenderError>
    requires v.gateway.Some?
  {
    if r.name == "" then Failure(UnnamedRoute)
    else
      var own :- if r.Attached() then Success([]) else OwnRouteDocs(v, r);
      Success(own + if r.protected then [Policy(v, r)] else [])
  }

  function AllRouteDocs(v: Values, routes: seq<Route>): Result<seq<Manifest>, RenderError>
    requires v.gateway.Some?
  {
    if routes == [] then Success([])
    else
      var first :- RouteDocs(v, routes[0]);
      var rest :- AllRouteDocs(v, routes[1..]);
      Success(first + rest)
  }

  /** The first protected entry that needs an allow-list the values do not give. */
  function Unguarded(v: Values, routes: seq<Route>): Option<Route> {
    if routes == [] then None
    else if routes[0].protected && !routes[0].authenticatedOnly && v.groups == [] then Some(routes[0])
    else Unguarded(v, routes[1..])
  }

  function PolicyDocs(v: Values): seq<Manifest> {
    if v.networkPolicy
    then [NetworkPolicy(ProxyName(BaseName(v)) + "-ingress"), NetworkPolicy(ValkeyName(BaseName(v)) + "-operator")]
    else []
  }

  // ----- The whole template ----------------------------------------------------------------------------

  function Render(v: Values): Result<seq<Manifest>, RenderError> {
    if !v.enabled then Success([])
    else
      :- Need(NameAccepted(BaseName(v)), BadName);
      :- Need(v.hostname != "", NoHostname);
      :- Need(v.issuer != "", NoIssuer);
      :- Need(v.gateway.Some?, NoGateway);
      var unguarded := Unguarded(v, Routes(v));
      :- Need(unguarded.None?, NoGroups(if unguarded.Some? then unguarded.value.name else ""));
      var oidc :- OidcDocs(v);
      var store :- StoreDocs(v);
      var proxy :- ProxyDocs(v);
      var gw := v.gateway.value;
      :- Need(gw.name != "" && gw.namespace != "" && gw.sectionName != "", IncompleteGateway);
      var routes :- AllRouteDocs(v, Routes(v));
      Success(oidc + store + CookieDocs(v) + proxy + [ProxyRoute(v)] + routes + PolicyDocs(v))
  }

  /** A render that produced an exposure. */
  ghost predicate Rendered(v: Values, docs: seq<Manifest>) {
    v.enabled && Render(v) == Success(docs)
  }

  /** The documents that belong to the install rather than to an entry. */
  function InstallDocs(v: Values): seq<Manifest>
    requires OidcDocs(v).Success? && StoreDocs(v).Success? && ProxyDocs(v).Success?
  {
    OidcDocs(v).value + StoreDocs(v).value + CookieDocs(v) + ProxyDocs(v).value
  }

  /** The documents of an exposure in the order they are emitted. */
  ghost predicate Assembled(v: Values, docs: seq<Manifest>, entries: seq<Manifest>) {
    && OidcDocs(v).Success? && StoreDocs(v).Success? && ProxyDocs(v).Success? && v.gateway.Some?
    && AllRouteDocs(v, Routes(v)) == Success(entries)
    && docs == InstallDocs(v) + [ProxyRoute(v)] + entries + PolicyDocs(v)
  }

  /** Every guard that a successful render has passed, and what it is made of. */
  lemma RenderParts(v: Values, docs: seq<Manifest>) returns (entries: seq<Manifest>)
    requires Rendered(v, docs)
    ensures NameAccepted(BaseName(v)) && v.hostname != "" && v.issuer != "" && v.gateway.Some?
    ensures Unguarded(v, Routes(v)).None? && Cfg(v).Success?
    ensures Assembled(v, docs, entries)
  {
    entries := AllRouteDocs(v, Routes(v)).value;
  }

  // ----- What renders --------------------------------------------------------------------------------

  /** An entry that renders: it is named and has a backend unless it attaches to an existing route. */
  predicate EntryRenders(v: Values, r: Route) {
    && r.name != ""
    && (r.Attached() || (
          var backend := if r.backend.Empty() then v.backend else r.backend;
          backend.name.Some? && backend.name.value != "" && backend.port.Some?))
  }

  lemma {:induction false} EntriesRender(v: Values, routes: seq<Route>)
    requires v.gateway.Some?
    ensures AllRouteDocs(v, routes).Success? <==> forall r | r in routes :: EntryRenders(v, r)
  {
    if routes != [] {
      assert RouteDocs(v, routes[0]).Success? <==> EntryRenders(v, routes[0]);
      EntriesRender(v, routes[1..]);
      assert forall r :: r in routes <==> r == routes[0] || r in routes[1..];
    }
  }

  lemma {:induction false} GuardedEntries(v: Values, routes: seq<Route>)
    ensures Unguarded(v, routes).None? <==>
            v.groups != [] || forall r | r in routes && r.protected :: r.authenticatedOnly
  {
    if routes != [] {
      GuardedEntries(v, routes[1..]);
      assert forall r :: r in routes <==> r == routes[0] || r in routes[1..];
    }
  }

  /** The values that render an exposure, all of them and no others; a disabled one renders nothing. */
  lemma RendersExactlyWhen(v: Values)
    ensures !v.enabled ==> Render(v) == Success([])
    ensures v.enabled ==>
            (Render(v).Success? <==>
              && NameAccepted(BaseName(v)) && v.hostname != "" && v.issuer != ""
              && v.gateway.Some? && v.gateway.value.name != ""
              && v.gateway.value.namespace != "" && v.gateway.value.sectionName != ""
              && (v.groups != [] || forall r | r in Routes(v) && r.protected :: r.authenticatedOnly)
              && (if v.identity.mode == "static" then v.identity.existingSecret != ""
                  else if v.identity.projectCluster then v.identity.projectId != ""
                  else v.identity.projectRef != "")
              && (v.sessionStoreUrl != "" || (v.persistence ==> v.persistenceSize != ""))
              && (v.identity.scopes != "" && v.sessionRefresh != "" ==> Contains(OFFLINE_ACCESS, v.identity.scopes))
              && v.imageRepository != "" && v.imageTag != ""
              && forall r | r in Routes(v) :: EntryRenders(v, r))
  {
    GuardedEntries(v, Routes(v));
    if v.gateway.Some? {
      EntriesRender(v, Routes(v));
    }
  }
}
