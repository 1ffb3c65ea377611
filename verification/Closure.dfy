/** References between the documents of an exposure, and whether each resolves (_exposure.tpl, _helpers.tpl). */
module Closure {
  import opened Wrappers
  import opened Text
  import opened Values
  import opened Exposure
  import opened Protection

  datatype Ref =
    | SecretRef(name: string) | ServiceRef(name: string) | ConfigMapRef(name: string)
    | GeneratorRef(name: string) | RouteRef(name: string) | GatewayRef(gateway: Gateway)

  /** What a document needs to exist. */
  ghost function Uses(d: Manifest): set<Ref> {
    match d
    case ExternalSecret(_, _, generator) => {GeneratorRef(generator)}
    case Deployment(_, oidc, cookie, config) => {SecretRef(oidc), SecretRef(cookie), ConfigMapRef(config)}
    case ConfigMap(_, cfg) => if cfg.store.Cluster? then {ServiceRef(cfg.store.host)} else {}
    case HTTPRoute(_, parent, _, _, _, backend, _) => {GatewayRef(parent), ServiceRef(backend)}
    case SecurityPolicy(_, target, extAuth, _, _) => {RouteRef(target), ServiceRef(extAuth)}
    case _ => {}
  }

  /** What a document brings into being, itself or through the operator that reconciles it. */
  ghost function Provides(d: Manifest): set<Ref> {
    match d
    case OIDCApp(_, _, _, secret) => {SecretRef(secret)}
    case ValkeyCluster(name) => {ServiceRef(OperatorService(name))}
    case Password(name) => {GeneratorRef(name)}
    case ExternalSecret(_, target, _) => {SecretRef(target)}
    case Service(name) => {ServiceRef(name)}
    case ConfigMap(name, _) => {ConfigMapRef(name)}
    case HTTPRoute(name, _, _, _, _, _, _) => {RouteRef(name)}
    case _ => {}
  }

  /** What the values say exists already. */
  ghost predicate Supplied(v: Values, ref: Ref) {
    match ref
    case SecretRef(name) =>
      (v.identity.Static() && name == v.identity.existingSecret) || (name != "" && name == v.cookieSecret)
    case ServiceRef(name) =>
      Some(name) == v.backend.name || exists r :: r in Routes(v) && r.backend.name == Some(name)
    case RouteRef(name) => exists r :: r in Routes(v) && r.Attached() && r.targetRouteName == name
    case GatewayRef(gateway) => v.gateway == Some(gateway)
    case _ => false
  }

  ghost predicate Resolves(v: Values, docs: seq<Manifest>, ref: Ref) {
    Supplied(v, ref) || exists d :: d in docs && ref in Provides(d)
  }

  /** Every reference of every document resolves, and every policy's rule names a provider it declares. */
  ghost predicate Closed(v: Values, docs: seq<Manifest>) {
    ProvidersDeclared(docs) && forall d, ref | d in docs && ref in Uses(d) :: Resolves(v, docs, ref)
  }

  ghost predicate ProvidersDeclared(docs: seq<Manifest>) {
    forall d | d in docs && d.SecurityPolicy? && d.jwt.Some? :: d.jwt.value.ruleProvider in d.jwt.value.providers
  }

  // ----- The entries' documents ----------------------------------------------------------------------

  lemma ProvidedBy(v: Values, docs: seq<Manifest>, d: Manifest, ref: Ref)
    requires d in docs && ref in Provides(d)
    ensures Resolves(v, docs, ref)
  {
  }

  /** A route list's documents point at the proxy, at what the caller supplies, or at one another. */
  lemma EntryRefs(v: Values, r: Route, docs: seq<Manifest>, d: Manifest, ref: Ref)
    requires v.gateway.Some? && RouteDocs(v, r) == Success(docs) && r in Routes(v)
    requires d in docs && ref in Uses(d)
    ensures ref == ServiceRef(ProxyName(BaseName(v))) || Resolves(v, docs, ref)
  {
    var own := if r.Attached() then [] else OwnRouteDocs(v, r).value;
    assert docs == own + if r.protected then [Policy(v, r)] else [];
    if d == Policy(v, r) && ref == RouteRef(Target(v, r)) && !r.Attached() {
      assert own[0] in docs;
      ProvidedBy(v, docs, own[0], ref);
    } else if d in own {
      var backend := if r.backend.Empty() then v.backend else r.backend;
      assert ref == GatewayRef(v.gateway.value) || ref == ServiceRef(backend.name.value);
    }
  }

  lemma ResolvesInMore(v: Values, docs: seq<Manifest>, more: seq<Manifest>, ref: Ref)
    requires Resolves(v, docs, ref) && forall d | d in docs :: d in more
    ensures Resolves(v, more, ref)
  {
  }

  lemma {:induction false} AllEntryRefs(v: Values, routes: seq<Route>, docs: seq<Manifest>, d: Manifest, ref: Ref)
    requires v.gateway.Some? && AllRouteDocs(v, routes) == Success(docs)
    requires forall r | r in routes :: r in Routes(v)
    requires d in docs && ref in Uses(d)
    ensures ref == ServiceRef(ProxyName(BaseName(v))) || Resolves(v, docs, ref)
  {
    if routes != [] {
      var first, rest := RouteDocs(v, routes[0]).value, AllRouteDocs(v, routes[1..]).value;
      if d in first {
        EntryRefs(v, routes[0], first, d, ref);
        if Resolves(v, first, ref) {
          ResolvesInMore(v, first, docs, ref);
        }
      } else {
        AllEntryRefs(v, routes[1..], rest, d, ref);
        if Resolves(v, rest, ref) {
          ResolvesInMore(v, rest, docs, ref);
        }
      }
    }
  }

  // ----- The install's documents -----------------------------------------------------------------------

  lemma InstallKinds(v: Values)
    requires OidcDocs(v).Success? && StoreDocs(v).Success? && ProxyDocs(v).Success?
    ensures forall d | d in InstallDocs(v) ::
              d in OidcDocs(v).value || d in StoreDocs(v).value || d in CookieDocs(v) || d in ProxyDocs(v).value
    ensures forall d |
              d in OidcDocs(v).value || d in StoreDocs(v).value || d in CookieDocs(v) || d in ProxyDocs(v).value ::
              d in InstallDocs(v)
  {
  }

  /** When the cookie chain's last link, the generator, is missing. */
  predicate CookieChainBroken(v: Values) {
    v.sessionStoreUrl != "" && v.cookieSecret == ""
  }

  lemma OidcSecretResolves(v: Values, docs: seq<Manifest>)
    requires OidcDocs(v).Success? && forall d | d in OidcDocs(v).value :: d in docs
    ensures Resolves(v, docs, SecretRef(OidcSecretName(v)))
  {
    if !v.identity.Static() {
      ProvidedBy(v, docs, OidcDocs(v).value[0], SecretRef(OidcSecretName(v)));
    }
  }

  lemma CookieSecretResolves(v: Values, docs: seq<Manifest>)
    requires forall d | d in CookieDocs(v) :: d in docs
    ensures Resolves(v, docs, SecretRef(CookieName(v)))
  {
    if v.cookieSecret == "" {
      ProvidedBy(v, docs, CookieDocs(v)[0], SecretRef(CookieName(v)));
    }
  }

  lemma StoreResolves(v: Values, docs: seq<Manifest>)
    requires StoreDocs(v).Success? && v.sessionStoreUrl == "" && forall d | d in StoreDocs(v).value :: d in docs
    ensures Resolves(v, docs, ServiceRef(ValkeyHost(BaseName(v))))
    ensures Resolves(v, docs, GeneratorRef(CookieName(v)))
  {
    ProvidedBy(v, docs, StoreDocs(v).value[0], ServiceRef(ValkeyHost(BaseName(v))));
    ProvidedBy(v, docs, StoreDocs(v).value[1], GeneratorRef(CookieName(v)));
  }

  lemma DeploymentRefs(v: Values, docs: seq<Manifest>, ref: Ref)
    requires OidcDocs(v).Success? && ProxyDocs(v).Success? && ref in Uses(ProxyDocs(v).value[1])
    requires forall x | x in OidcDocs(v).value || x in CookieDocs(v) || x in ProxyDocs(v).value :: x in docs
    ensures Resolves(v, docs, ref)
  {
    OidcSecretResolves(v, docs);
    CookieSecretResolves(v, docs);
    ProvidedBy(v, docs, ProxyDocs(v).value[2], ConfigMapRef(ProxyName(BaseName(v))));
  }

  /** Every reference of the install's own documents resolves but, possibly, the cookie generator. */
  lemma InstallRefs(v: Values, docs: seq<Manifest>, d: Manifest, ref: Ref)
    requires OidcDocs(v).Success? && StoreDocs(v).Success? && ProxyDocs(v).Success?
    requires forall x | x in InstallDocs(v) :: x in docs
    requires d in InstallDocs(v) && ref in Uses(d)
    ensures Resolves(v, docs, ref) || (CookieChainBroken(v) && ref == GeneratorRef(CookieName(v)))
  {
    InstallKinds(v);
    if d.Deployment? {
      DeploymentRefs(v, docs, ref);
    } else if v.sessionStoreUrl == "" {
      StoreResolves(v, docs);
    }
  }

  lemma ProxyServiceResolves(v: Values, docs: seq<Manifest>)
    requires OidcDocs(v).Success? && StoreDocs(v).Success? && ProxyDocs(v).Success?
    requires forall x | x in InstallDocs(v) :: x in docs
    ensures Resolves(v, docs, ServiceRef(ProxyName(BaseName(v))))
  {
    ProvidedBy(v, docs, ProxyDocs(v).value[0], ServiceRef(ProxyName(BaseName(v))));
  }

  /** Every kind of document but policies and HTTPRoutes belongs to the install. */
  lemma DocIsInstallsOrEntrys(v: Values, docs: seq<Manifest>, entries: seq<Manifest>, d: Manifest)
    requires Assembled(v, docs, entries) && d in docs
    ensures d in InstallDocs(v) || d.HTTPRoute? || d.SecurityPolicy? || (d.NetworkPolicy? && d in PolicyDocs(v))
  {
    EntryKinds(v, Routes(v), entries);
    assert d in InstallDocs(v) || d == ProxyRoute(v) || d in entries || d in PolicyDocs(v);
  }

  /** Where documents of an install's kinds are emitted. */
  ghost predicate InPlace(v: Values, d: Manifest)
    requires OidcDocs(v).Success? && StoreDocs(v).Success? && ProxyDocs(v).Success?
  {
    && (d.Password? || d.ValkeyCluster? ==> d in StoreDocs(v).value)
    && (d.ExternalSecret? ==> d in CookieDocs(v))
    && (d.Service? || d.Deployment? || d.ConfigMap? ==> d in ProxyDocs(v).value)
    && (d.OIDCApp? ==> d in OidcDocs(v).value)
    && (d.NetworkPolicy? ==> d in PolicyDocs(v))
  }

  lemma InstallInPlace(v: Values, d: Manifest)
    requires OidcDocs(v).Success? && StoreDocs(v).Success? && ProxyDocs(v).Success? && d in InstallDocs(v)
    ensures InPlace(v, d)
  {
    InstallKinds(v);
  }

  lemma EmittedIsRendered(v: Values, docs: seq<Manifest>, entries: seq<Manifest>)
    requires Assembled(v, docs, entries)
    ensures forall d | d in OidcDocs(v).value || d in StoreDocs(v).value || d in CookieDocs(v) :: d in docs
    ensures forall d | d in ProxyDocs(v).value || d in PolicyDocs(v) :: d in docs
  {
    InstallKinds(v);
    assert forall d | d in InstallDocs(v) :: d in docs;
  }

  /** Each kind of install document comes from one place, and what is emitted there is rendered. */
  lemma KindsOfDocs(v: Values, docs: seq<Manifest>, entries: seq<Manifest>)
    requires Assembled(v, docs, entries)
    ensures forall d | d in docs :: InPlace(v, d)
    ensures forall d | d in OidcDocs(v).value || d in StoreDocs(v).value || d in CookieDocs(v) :: d in docs
    ensures forall d | d in ProxyDocs(v).value || d in PolicyDocs(v) :: d in docs
  {
    EmittedIsRendered(v, docs, entries);
    forall d | d in docs
      ensures InPlace(v, d)
    {
      DocIsInstallsOrEntrys(v, docs, entries, d);
      if d in InstallDocs(v) {
        InstallInPlace(v, d);
      }
    }
  }

  lemma StoreKinds(v: Values, docs: seq<Manifest>, entries: seq<Manifest>)
    requires Assembled(v, docs, entries)
    ensures (exists d :: d in docs && d.Password?) <==> v.sessionStoreUrl == ""
    ensures (exists d :: d in docs && d.ValkeyCluster?) <==> v.sessionStoreUrl == ""
    ensures (exists d :: d in docs && d.ExternalSecret?) <==> v.cookieSecret == ""
  {
    KindsOfDocs(v, docs, entries);
    if v.sessionStoreUrl == "" {
      assert StoreDocs(v).value[0] in docs && StoreDocs(v).value[1] in docs;
    }
    if v.cookieSecret == "" {
      assert CookieDocs(v)[0] in docs;
    }
  }

  // ----- Closure ---------------------------------------------------------------------------------------

  lemma AssembledRefs(v: Values, docs: seq<Manifest>, entries: seq<Manifest>, d: Manifest, ref: Ref)
    requires Assembled(v, docs, entries) && d in docs && ref in Uses(d)
    ensures Resolves(v, docs, ref) || (CookieChainBroken(v) && ref == GeneratorRef(CookieName(v)))
  {
    if d in InstallDocs(v) {
      InstallRefs(v, docs, d, ref);
    } else {
      ProxyServiceResolves(v, docs);
      if d in entries {
        AllEntryRefs(v, Routes(v), entries, d, ref);
        if Resolves(v, entries, ref) {
          ResolvesInMore(v, entries, docs, ref);
        }
      }
    }
  }

  lemma NoPasswordNoGenerator(v: Values, docs: seq<Manifest>, name: string)
    requires forall d | d in docs :: !d.Password?
    ensures !Resolves(v, docs, GeneratorRef(name))
  {
  }

  /** In a broken chain the ExternalSecret is rendered and its generator is not. */
  lemma GeneratorDangles(v: Values, docs: seq<Manifest>, entries: seq<Manifest>)
    requires Assembled(v, docs, entries) && CookieChainBroken(v)
    ensures exists d :: d in docs && GeneratorRef(CookieName(v)) in Uses(d)
    ensures !Resolves(v, docs, GeneratorRef(CookieName(v)))
  {
    KindsOfDocs(v, docs, entries);
    assert StoreDocs(v).value == [];
    NoPasswordNoGenerator(v, docs, CookieName(v));
    var d := CookieDocs(v)[0];
    assert d in docs && GeneratorRef(CookieName(v)) in Uses(d);
  }

  lemma PoliciesDeclareTheirProvider(v: Values, docs: seq<Manifest>, entries: seq<Manifest>)
    requires Assembled(v, docs, entries)
    ensures ProvidersDeclared(docs)
  {
    InstallHasNoRoutes(v);
    PoliciesInOrder(v, Routes(v), entries);
    forall d | d in docs && d.SecurityPolicy? && d.jwt.Some?
      ensures d.jwt.value.ruleProvider in d.jwt.value.providers
    {
      assert d in InstallDocs(v) || d == ProxyRoute(v) || d in entries || d in PolicyDocs(v);
      SelectMembers(entries, IsPolicy);
      var i :| 0 <= i < |Policies(entries)| && Policies(entries)[i] == d;
      assert Protects(v, Protected(v)[i], Policies(entries)[i]);
    }
  }

  lemma OnlyTheGeneratorDangles(v: Values, docs: seq<Manifest>, entries: seq<Manifest>, d: Manifest, ref: Ref)
    requires Assembled(v, docs, entries) && d in docs && ref in Uses(d) && !Resolves(v, docs, ref)
    ensures CookieChainBroken(v) && d.ExternalSecret? && ref == GeneratorRef(CookieName(v))
  {
    AssembledRefs(v, docs, entries, d, ref);
  }

  /**
    An exposure is closed exactly when it renders its own session store or is given the cookie
    Secret. With a shared store and a generated cookie Secret, one reference dangles: the
    ExternalSecret's generator, whose Password is rendered with the store it no longer has.
   */
  lemma RenderIsClosed(v: Values, docs: seq<Manifest>)
    requires Rendered(v, docs)
    ensures Closed(v, docs) <==> v.sessionStoreUrl == "" || v.cookieSecret != ""
    ensures forall d, ref | d in docs && ref in Uses(d) && !Resolves(v, docs, ref) ::
              d.ExternalSecret? && ref == GeneratorRef(CookieName(v))
  {
    var entries := RenderParts(v, docs);
    PoliciesDeclareTheirProvider(v, docs, entries);
    forall d, ref | d in docs && ref in Uses(d) && !Resolves(v, docs, ref)
      ensures CookieChainBroken(v) && d.ExternalSecret? && ref == GeneratorRef(CookieName(v))
    {
      OnlyTheGeneratorDangles(v, docs, entries, d, ref);
    }
    if CookieChainBroken(v) {
      GeneratorDangles(v, docs, entries);
    }
  }

  /** The proxy is told to dial a cluster exactly when one is rendered, and then it dials that one. */
  lemma ClusterUrlMatchesCluster(v: Values, docs: seq<Manifest>, d: Manifest)
    requires Rendered(v, docs) && d in docs && d.ConfigMap?
    ensures d.cfg.store.Cluster? <==> exists c :: c in docs && c.ValkeyCluster?
    ensures d.cfg.store.Cluster? ==>
              && d.cfg.store.fqdn == "redis://" + d.cfg.store.host + "." + v.releaseNamespace + ".svc."
                                     + Default(v.dnsDomain, "cluster.local") + ":6379"
              && exists c :: c in docs && c.ValkeyCluster? && d.cfg.store.host == "valkey-" + c.name
  {
    var entries := RenderParts(v, docs);
    KindsOfDocs(v, docs, entries);
    StoreKinds(v, docs, entries);
    assert d == ProxyDocs(v).value[2];
    if v.sessionStoreUrl == "" {
      assert StoreDocs(v).value[0] in docs;
    }
  }

  /** An own store beside a supplied cookie Secret leaves a Password generator nothing refers to. */
  lemma UnusedGenerator(v: Values, docs: seq<Manifest>)
    requires Rendered(v, docs)
    ensures (exists d :: d in docs && d.Password?) && !(exists d :: d in docs && d.ExternalSecret?) <==>
            v.sessionStoreUrl == "" && v.cookieSecret != ""
  {
    var entries := RenderParts(v, docs);
    StoreKinds(v, docs, entries);
  }
}
