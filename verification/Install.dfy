/**
  What an install's own documents say, told from the values and from one another (_exposure.tpl):
  which are rendered, how they are wired together, and what the proxy is configured with.
 */
module Install {
  import opened Wrappers
  import opened Values
  import opened Exposure
  import opened Protection
  import opened Closure

  // ----- The proxy ---------------------------------------------------------------------------------

  /** The documents of the proxy, found by their kinds. */
  lemma ProxyDocuments(v: Values, docs: seq<Manifest>)
    returns (service: Manifest, deployment: Manifest, config: Manifest)
    requires Rendered(v, docs)
    ensures service in docs && deployment in docs && config in docs
    ensures service.Service? && deployment.Deployment? && config.ConfigMap?
    ensures forall d | d in docs ::
              && (d.Service? ==> d == service) && (d.Deployment? ==> d == deployment) && (d.ConfigMap? ==> d == config)
    ensures ProxyDocs(v).Success? && ProxyDocs(v).value == [service, deployment, config]
  {
    var entries := RenderParts(v, docs);
    KindsOfDocs(v, docs, entries);
    service, deployment, config := ProxyDocs(v).value[0], ProxyDocs(v).value[1], ProxyDocs(v).value[2];
  }

  /**
    The install has one proxy. Its Deployment reads the one configuration, the proxy's HTTPRoute and
    every policy call its Service, and the route is the prefix the configuration owns, on the host and
    the gateway of the values.
   */
  lemma ProxyIsWired(v: Values, docs: seq<Manifest>)
    returns (service: Manifest, deployment: Manifest, config: Manifest)
    requires Rendered(v, docs)
    ensures service in docs && deployment in docs && config in docs
    ensures service.Service? && deployment.Deployment? && config.ConfigMap?
    ensures forall d | d in docs ::
              && (d.Service? ==> d == service) && (d.Deployment? ==> d == deployment) && (d.ConfigMap? ==> d == config)
    ensures deployment.configMap == config.name
    ensures service.name == (if v.name != "" then v.name else v.releaseName) + "-oauth2-proxy"
    ensures HttpRoutes(docs) != [] && HttpRoutes(docs)[0].HTTPRoute?
    ensures var route := HttpRoutes(docs)[0];
            && route.backend == service.name && route.port == 4180
            && route.pathType == "PathPrefix" && route.path == config.cfg.proxyPrefix + "/"
            && route.hostname == v.hostname && Some(route.parent) == v.gateway
    ensures forall p | p in docs && p.SecurityPolicy? :: p.extAuth == service.name
  {
    service, deployment, config := ProxyDocuments(v, docs);
    CoverageInOrder(v, docs);
    forall p | p in docs && p.SecurityPolicy?
      ensures p.extAuth == ProxyName(BaseName(v))
    {
      var r := PolicyHasAnEntry(v, docs, p);
    }
  }

  /**
    Each of the Deployment's two Secrets holds what it is read for: the client credentials are the
    supplied ones in static mode and otherwise those of the one OIDCApp, and the cookie key is the
    supplied one or else what the one ExternalSecret writes.
   */
  lemma DeploymentReadsItsSecrets(v: Values, docs: seq<Manifest>, d: Manifest)
    requires Rendered(v, docs) && d in docs && d.Deployment?
    ensures v.identity.mode == "static" ==>
              d.oidcSecret == v.identity.existingSecret && forall x | x in docs :: !x.OIDCApp?
    ensures v.identity.mode != "static" ==>
              && (exists x :: x in docs && x.OIDCApp?)
              && forall x | x in docs && x.OIDCApp? :: x.secret == d.oidcSecret
    ensures v.cookieSecret != "" ==>
              d.cookieSecret == v.cookieSecret && forall x | x in docs :: !x.ExternalSecret?
    ensures v.cookieSecret == "" ==>
              && (exists x :: x in docs && x.ExternalSecret?)
              && forall x | x in docs && x.ExternalSecret? :: x.target == d.cookieSecret
    ensures d.oidcSecret != d.cookieSecret || v.identity.mode == "static" || v.cookieSecret != ""
  {
    var entries := RenderParts(v, docs);
    KindsOfDocs(v, docs, entries);
    SecretsDiffer(BaseName(v));
    if v.identity.mode != "static" {
      assert OidcDocs(v).value[0] in docs;
    }
    if v.cookieSecret == "" {
      assert CookieDocs(v)[0] in docs;
    }
  }

  lemma SecretsDiffer(base: string)
    ensures base + "-oidc-client" != base + "-cookie"
  {
    assert |base + "-oidc-client"| != |base + "-cookie"|;
  }

  /** What the proxy is configured with: the values' settings, each with its default. */
  lemma ConfigIs(v: Values, docs: seq<Manifest>, d: Manifest)
    requires Rendered(v, docs) && d in docs && d.ConfigMap?
    ensures d.cfg.issuer == v.issuer && d.cfg.setAuthorizationHeader == v.passAuthorizationHeader
    ensures d.cfg.proxyPrefix == if v.proxyPrefix != "" then v.proxyPrefix else "/oauth2"
    ensures d.cfg.expire == if v.sessionExpire != "" then v.sessionExpire else "11h"
    ensures d.cfg.refresh == v.sessionRefresh
    ensures v.identity.scopes != "" ==> d.cfg.scope == v.identity.scopes
    ensures v.sessionStoreUrl != "" ==> d.cfg.store == Url(v.sessionStoreUrl)
  {
    var _, _, config := ProxyDocuments(v, docs);
  }

  /**
    The proxy and the policies agree: a groups rule trusts the issuer the proxy logs in with, and the
    Authorization header is passed on exactly when the proxy sets it.
   */
  lemma PolicyMeetsConfig(v: Values, docs: seq<Manifest>, config: Manifest, policy: Manifest)
    requires Rendered(v, docs) && config in docs && config.ConfigMap? && policy in docs && policy.SecurityPolicy?
    ensures policy.jwt.Some? ==> policy.jwt.value.issuer == config.cfg.issuer
    ensures "authorization" in policy.headers <==> config.cfg.setAuthorizationHeader
  {
    ConfigIs(v, docs, config);
    var r := PolicyHasAnEntry(v, docs, policy);
    PolicyShares(v, r, policy);
  }

  lemma PolicyShares(v: Values, r: Route, policy: Manifest)
    requires Protects(v, r, policy)
    ensures policy.jwt.Some? ==> policy.jwt.value.issuer == v.issuer
    ensures "authorization" in policy.headers <==> v.passAuthorizationHeader
  {
    var listed := set h | h in policy.headers;
    assert "authorization" in policy.headers <==> "authorization" in listed;
    assert "authorization"[0] != "x-auth-request-access-token"[0] && "authorization"[0] != "x-auth-request-user"[0];
    assert "authorization"[0] != "x-auth-request-email"[0] && "authorization"[0] != "x-auth-request-groups"[0];
  }

  // ----- The other documents -------------------------------------------------------------------------

  /** The OIDC client is registered exactly when the caller brings none, and only once. */
  lemma ClientIsRegistered(v: Values, docs: seq<Manifest>)
    requires Rendered(v, docs)
    ensures (exists d :: d in docs && d.OIDCApp?) <==> v.identity.mode != "static"
    ensures forall d, e | d in docs && e in docs && d.OIDCApp? && e.OIDCApp? :: d == e
    ensures forall d | d in docs && d.OIDCApp? ::
              var base := if v.name != "" then v.name else v.releaseName;
              && d.name == base + "-oidc"
              && d.appName == if v.identity.appName != "" then v.identity.appName else base + "-" + v.clusterName
  {
    var entries := RenderParts(v, docs);
    KindsOfDocs(v, docs, entries);
    if v.identity.mode != "static" {
      assert OidcDocs(v).value[0] in docs;
    }
  }

  /** The session store and the cookie Secret's two halves: when each is rendered, and under one name. */
  lemma StoreAndCookieAre(v: Values, docs: seq<Manifest>)
    requires Rendered(v, docs)
    ensures (exists d :: d in docs && d.ValkeyCluster?) <==> v.sessionStoreUrl == ""
    ensures (exists d :: d in docs && d.Password?) <==> v.sessionStoreUrl == ""
    ensures (exists d :: d in docs && d.ExternalSecret?) <==> v.cookieSecret == ""
    ensures forall d | d in docs ::
              var base := if v.name != "" then v.name else v.releaseName;
              && (d.ValkeyCluster? ==> d.name == base + "-sessions")
              && (d.Password? ==> d.name == if v.cookieSecret != "" then v.cookieSecret else base + "-cookie")
              && (d.ExternalSecret? ==> d.name == d.target == d.generator == base + "-cookie")
  {
    var entries := RenderParts(v, docs);
    KindsOfDocs(v, docs, entries);
    StoreKinds(v, docs, entries);
  }

  /** The two NetworkPolicies are rendered when asked for, and not otherwise. */
  lemma NetworkPoliciesAre(v: Values, docs: seq<Manifest>)
    requires Rendered(v, docs)
    ensures var base := if v.name != "" then v.name else v.releaseName;
            forall name :: NetworkPolicy(name) in docs <==>
              v.networkPolicy && (name == base + "-oauth2-proxy-ingress" || name == base + "-sessions-operator")
  {
    var base := BaseName(v);
    var entries := RenderParts(v, docs);
    KindsOfDocs(v, docs, entries);
    assert base + "-oauth2-proxy" + "-ingress" == base + "-oauth2-proxy-ingress";
    assert base + "-sessions" + "-operator" == base + "-sessions-operator";
    assert forall name :: NetworkPolicy(name) in docs ==> InPlace(v, NetworkPolicy(name));
  }

  // ----- The entries -------------------------------------------------------------------------------------

  /** The entries are the given ones; with none given, the whole host is one entry behind the groups rule. */
  lemma NoEntriesProtectTheHost(v: Values, docs: seq<Manifest>)
    requires Rendered(v, docs)
    ensures v.routes != [] ==> Routes(v) == v.routes
    ensures v.routes == [] ==>
              && |HttpRoutes(docs)| == 2 && HttpRoutes(docs)[1].HTTPRoute?
              && HttpRoutes(docs)[1].path == "/" && HttpRoutes(docs)[1].pathType == "PathPrefix"
              && Some(HttpRoutes(docs)[1].backend) == v.backend.name
              && |Policies(docs)| == 1 && Policies(docs)[0].SecurityPolicy?
              && Policies(docs)[0].target == HttpRoutes(docs)[1].name
              && Policies(docs)[0].jwt.Some? && Policies(docs)[0].jwt.value.groups == v.groups != []
  {
    if v.routes == [] {
      OnlyAppRoute(v);
      CoverageInOrder(v, docs);
      var _ := RenderParts(v, docs);
      GuardedEntries(v, Routes(v));
      assert Exposes(v, APP_ROUTE, HttpRoutes(docs)[1..][0]);
      assert Protects(v, APP_ROUTE, Policies(docs)[0]);
      assert APP_ROUTE in Routes(v);
    }
  }

  lemma OnlyAppRoute(v: Values)
    requires v.routes == []
    ensures Owned(v) == [APP_ROUTE] && Protected(v) == [APP_ROUTE]
  {
    SelectTwo(APP_ROUTE, APP_ROUTE, IsOwned);
    SelectTwo(APP_ROUTE, APP_ROUTE, IsProtected);
  }
}
