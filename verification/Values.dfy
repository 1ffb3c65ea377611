/** The chart's values and the names its helpers derive from them (_helpers.tpl). */
module Values {
  import opened Wrappers
  import opened Text

  // An unset string is "", which Helm's `default` and `required` treat alike.

  /** A backend block; an empty one (neither key set) counts as absent. */
  datatype Backend = Backend(name: Option<string>, port: Option<int>) {
    predicate Empty() {
      name.None? && port.None?
    }
  }

  datatype Route = Route(
    name: string, path: string, pathType: string, protected: bool, authenticatedOnly: bool,
    targetRouteName: string, backend: Backend)
  {
    /** Bound to an existing HTTPRoute instead of owning one. */
    predicate Attached() {
      targetRouteName != ""
    }
  }

  datatype Gateway = Gateway(name: string, namespace: string, sectionName: string)

  datatype IdentityValues = IdentityValues(
    mode: string, existingSecret: string, jwksUri: string, scopes: string, appName: string,
    projectCluster: bool, projectId: string, projectRef: string)
  {
    predicate Static() {
      mode == "static"
    }
  }

  datatype Values = Values(
    releaseName: string, releaseNamespace: string, clusterName: string,
    enabled: bool, name: string, hostname: string, issuer: string, proxyPrefix: string,
    dnsDomain: string, passAuthorizationHeader: bool, gateway: Option<Gateway>,
    identity: IdentityValues, sessionExpire: string, sessionRefresh: string,
    routes: seq<Route>, groups: seq<string>, backend: Backend,
    imageRepository: string, imageTag: string,
    persistence: bool, persistenceSize: string, networkPolicy: bool,
    cookieSecret: string, sessionStoreUrl: string)

  function BaseName(v: Values): string {
    Default(v.name, v.releaseName)
  }

  function Dashed(base: string, suffix: string): string {
    base + "-" + suffix
  }

  function ProxyName(base: string): string {
    base + "-oauth2-proxy"
  }

  function ValkeyName(base: string): string {
    base + "-sessions"
  }

  /** The Service the valkey operator creates for a ValkeyCluster. */
  function OperatorService(cluster: string): string {
    "valkey-" + cluster
  }

  function ValkeyHost(base: string): string {
    OperatorService(ValkeyName(base))
  }

  function OidcSecretName(v: Values): string {
    if v.identity.Static() then v.identity.existingSecret else BaseName(v) + "-oidc-client"
  }

  function CookieName(v: Values): string {
    if v.cookieSecret != "" then v.cookieSecret else BaseName(v) + "-cookie"
  }

  function JwtProviderName(v: Values): string {
    Default(v.identity.mode, "zitadel")
  }

  // ----- The name guard ------------------------------------------------------------------------

  predicate Alnum(c: char) {
    'a' <= c <= 'z' || '0' <= c <= '9'
  }

  /** The guard's regular expression with room for `cap` characters. */
  predicate NameAcceptedUpTo(s: string, cap: nat) {
    || (|s| == 1 && Alnum(s[0]))
    || (2 <= |s| <= cap && Alnum(s[0]) && Alnum(s[|s| - 1])
        && forall i | 1 <= i < |s| - 1 :: Alnum(s[i]) || s[i] == '-')
  }

  /** The guard: ^[a-z0-9]([a-z0-9-]{0,45}[a-z0-9])?$ */
  predicate NameAccepted(s: string) {
    NameAcceptedUpTo(s, 47)
  }

  predicate AlnumOrHyphen(s: string) {
    forall i | 0 <= i < |s| :: Alnum(s[i]) || s[i] == '-'
  }

  predicate Hyphenated(s: string) {
    s != "" && Alnum(s[0]) && Alnum(s[|s| - 1]) && AlnumOrHyphen(s)
  }

  /** A DNS-1123 label, what a Service's name must be: at most 63 characters (section 2.3.4 of RFC 1035). */
  predicate DnsLabel(s: string) {
    |s| <= 63 && Hyphenated(s)
  }

  /** The base name and the names of the Services, the proxy's and the session store's, are DNS-1123 labels. */
  predicate ServiceLabels(s: string) {
    DnsLabel(s) && DnsLabel(ProxyName(s)) && DnsLabel(ValkeyName(s)) && DnsLabel(ValkeyHost(s))
  }

  lemma WithSuffix(s: string, suffix: string)
    requires Hyphenated(s) && suffix != "" && Alnum(suffix[|suffix| - 1]) && AlnumOrHyphen(suffix)
    ensures Hyphenated(s + suffix)
  {
  }

  lemma WithPrefix(prefix: string, s: string)
    requires Hyphenated(s) && prefix != "" && Alnum(prefix[0]) && AlnumOrHyphen(prefix)
    ensures Hyphenated(prefix + s)
  {
  }

  /**
    The guard accepts exactly the labels whose proxy, session-store and session-store host names
    are labels too, since 7 + 47 + 9 = 63.
   */
  lemma AcceptedNamesAreExact(s: string)
    ensures NameAccepted(s) <==> ServiceLabels(s)
  {
    assert |ValkeyHost(s)| == |s| + 16;
    if NameAccepted(s) {
      WithSuffix(s, "-oauth2-proxy");
      WithSuffix(s, "-sessions");
      WithPrefix("valkey-", ValkeyName(s));
    }
  }

  /** 47 is the largest cap under which every accepted base name makes these names labels. */
  lemma NameCapIsExact(cap: nat)
    ensures (forall s | NameAcceptedUpTo(s, cap) :: ServiceLabels(s)) <==> cap <= 47
  {
    forall s | NameAcceptedUpTo(s, cap) && cap <= 47
      ensures ServiceLabels(s)
    {
      AcceptedNamesAreExact(s);
    }
    if cap > 47 {
      var s := seq(48, _ => 'a');
      assert NameAcceptedUpTo(s, cap) && |ValkeyHost(s)| == 64;
    }
  }
}
